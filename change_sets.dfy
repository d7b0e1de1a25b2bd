/**
 * The change set of a push: folding the commits of a push into one
 * path -> kind association (parseCommits / parseCommit), and the folder
 * scoping that every terminal operation of the handler applies to it
 * (handleChanges).
 */
module ChangeSets {
  import opened Wrappers
  import opened PhpStrings

  datatype Kind = Added | Modified | Removed

  /** The string the handler reports for a kind. */
  function KindName(k: Kind): string {
    match k
    case Added => "added"
    case Modified => "modified"
    case Removed => "removed"
  }

  /** One commit of the push payload: the paths it lists under added, modified and removed. */
  datatype Commit = Commit(added: seq<string>, modified: seq<string>, removed: seq<string>)

  /**
   * A PHP associative array from path to kind. The keys keep the order in
   * which they were first inserted.
   */
  type ChangeList = seq<(string, Kind)>

  function Paths(m: ChangeList): (r: seq<string>)
    ensures |r| == |m|
    ensures forall i :: 0 <= i < |m| ==> r[i] == m[i].0
  {
    if m == [] then [] else [m[0].0] + Paths(m[1..])
  }

  predicate Distinct(s: seq<string>) {
    forall i, j :: 0 <= i < j < |s| ==> s[i] != s[j]
  }

  /** No path occurs twice: the shape of a PHP array keyed by path. */
  predicate KeysUnique(m: ChangeList) {
    Distinct(Paths(m))
  }

  /** `$changes[$p]`, or None when the key is absent. */
  function Lookup(m: ChangeList, p: string): Option<Kind> {
    if m == [] then None
    else if m[0].0 == p then Some(m[0].1)
    else Lookup(m[1..], p)
  }

  /** `$changes[$p] = $k`: an existing key keeps its position, a new key goes last. */
  function Put(m: ChangeList, p: string, k: Kind): ChangeList {
    if m == [] then [(p, k)]
    else if m[0].0 == p then [(p, k)] + m[1..]
    else [m[0]] + Put(m[1..], p, k)
  }

  /** The assignments of one `foreach` of parseCommit, in list order. */
  function PutAll(m: ChangeList, ps: seq<string>, k: Kind): ChangeList
    decreases |ps|
  {
    if ps == [] then m else Put(PutAll(m, ps[..|ps| - 1], k), ps[|ps| - 1], k)
  }

  /** parseCommit: added first, then modified, then removed. */
  function ApplyCommit(m: ChangeList, c: Commit): ChangeList {
    PutAll(PutAll(PutAll(m, c.added, Added), c.modified, Modified), c.removed, Removed)
  }

  /** parseCommits: the commits in payload order, starting from an empty array. */
  function FoldCommits(cs: seq<Commit>): ChangeList
    decreases |cs|
  {
    if cs == [] then [] else ApplyCommit(FoldCommits(cs[..|cs| - 1]), cs[|cs| - 1])
  }

  // ---------------------------------------------------------------------
  // Reference definitions the fold is proved against

  /** The kind a single commit leaves for p: its last list naming p wins. */
  function CommitWrite(c: Commit, p: string): Option<Kind> {
    if p in c.removed then Some(Removed)
    else if p in c.modified then Some(Modified)
    else if p in c.added then Some(Added)
    else None
  }

  /** The kind written last for p, searching the commits from the newest back. */
  function LastWrite(cs: seq<Commit>, p: string): Option<Kind>
    decreases |cs|
  {
    if cs == [] then None
    else match CommitWrite(cs[|cs| - 1], p)
      case Some(k) => Some(k)
      case None => LastWrite(cs[..|cs| - 1], p)
  }

  function CommitPaths(c: Commit): seq<string> {
    c.added + c.modified + c.removed
  }

  /** Every path the payload lists, in the order parseCommits visits them. */
  function AllPaths(cs: seq<Commit>): seq<string>
    decreases |cs|
  {
    if cs == [] then [] else AllPaths(cs[..|cs| - 1]) + CommitPaths(cs[|cs| - 1])
  }

  /** d followed by the elements of s not seen before, each at its first occurrence. */
  function Extend(d: seq<string>, s: seq<string>): seq<string>
    decreases |s|
  {
    if s == [] then d
    else
      var e := Extend(d, s[..|s| - 1]);
      if s[|s| - 1] in e then e else e + [s[|s| - 1]]
  }

  /** The distinct elements of s in order of first occurrence. */
  function Dedup(s: seq<string>): seq<string> {
    Extend([], s)
  }

  // ---------------------------------------------------------------------
  // Assignment

  lemma {:induction false} PutLookup(m: ChangeList, p: string, k: Kind, q: string)
    ensures Lookup(Put(m, p, k), q) == if q == p then Some(k) else Lookup(m, q)
  {
    if m != [] && m[0].0 != p {
      PutLookup(m[1..], p, k, q);
      assert ([m[0]] + Put(m[1..], p, k))[1..] == Put(m[1..], p, k);
    } else if m != [] {
      assert ([(p, k)] + m[1..])[1..] == m[1..];
    }
  }

  lemma PathsConcat(a: ChangeList, b: ChangeList)
    ensures Paths(a + b) == Paths(a) + Paths(b)
  {
  }

  lemma {:induction false} PutPaths(m: ChangeList, p: string, k: Kind)
    ensures Paths(Put(m, p, k)) == if p in Paths(m) then Paths(m) else Paths(m) + [p]
  {
    if m != [] && m[0].0 != p {
      PutPaths(m[1..], p, k);
      assert Put(m, p, k)[1..] == Put(m[1..], p, k);
    } else if m != [] {
      assert Put(m, p, k)[1..] == m[1..];
    }
  }

  lemma {:induction false} PutAllLookup(m: ChangeList, ps: seq<string>, k: Kind, q: string)
    ensures Lookup(PutAll(m, ps, k), q) == if q in ps then Some(k) else Lookup(m, q)
    decreases |ps|
  {
    if ps != [] {
      var init := ps[..|ps| - 1];
      PutAllLookup(m, init, k, q);
      PutLookup(PutAll(m, init, k), ps[|ps| - 1], k, q);
      assert ps == init + [ps[|ps| - 1]];
    }
  }

  lemma {:induction false} ExtendAppend(d: seq<string>, a: seq<string>, b: seq<string>)
    ensures Extend(d, a + b) == Extend(Extend(d, a), b)
    decreases |b|
  {
    if b == [] {
      assert a + b == a;
    } else {
      ExtendAppend(d, a, b[..|b| - 1]);
      assert (a + b)[..|a + b| - 1] == a + b[..|b| - 1];
    }
  }

  lemma {:induction false} PutAllPaths(m: ChangeList, ps: seq<string>, k: Kind)
    ensures Paths(PutAll(m, ps, k)) == Extend(Paths(m), ps)
    decreases |ps|
  {
    if ps != [] {
      PutAllPaths(m, ps[..|ps| - 1], k);
      PutPaths(PutAll(m, ps[..|ps| - 1], k), ps[|ps| - 1], k);
    }
  }

  lemma ApplyCommitPaths(m: ChangeList, c: Commit)
    ensures Paths(ApplyCommit(m, c)) == Extend(Paths(m), CommitPaths(c))
  {
    var m1 := PutAll(m, c.added, Added);
    var m2 := PutAll(m1, c.modified, Modified);
    PutAllPaths(m, c.added, Added);
    PutAllPaths(m1, c.modified, Modified);
    PutAllPaths(m2, c.removed, Removed);
    ExtendAppend(Paths(m), c.added, c.modified);
    ExtendAppend(Paths(m), c.added + c.modified, c.removed);
  }

  lemma ApplyCommitLookup(m: ChangeList, c: Commit, p: string)
    ensures Lookup(ApplyCommit(m, c), p) ==
      match CommitWrite(c, p)
      case Some(k) => Some(k)
      case None => Lookup(m, p)
  {
    var m1 := PutAll(m, c.added, Added);
    var m2 := PutAll(m1, c.modified, Modified);
    PutAllLookup(m, c.added, Added, p);
    PutAllLookup(m1, c.modified, Modified, p);
    PutAllLookup(m2, c.removed, Removed, p);
  }

  /**
   * After folding, every path maps to the kind written for it last:
   * the newest commit naming it decides, and within a commit removed
   * beats modified beats added.
   */
  lemma {:induction false} FoldIsLastWrite(cs: seq<Commit>, p: string)
    ensures Lookup(FoldCommits(cs), p) == LastWrite(cs, p)
    decreases |cs|
  {
    if cs != [] {
      FoldIsLastWrite(cs[..|cs| - 1], p);
      ApplyCommitLookup(FoldCommits(cs[..|cs| - 1]), cs[|cs| - 1], p);
    }
  }

  /** A path both added and removed in the same commit ends up removed. */
  lemma AddedThenRemovedIsRemoved(cs: seq<Commit>, p: string)
    requires cs != [] && p in cs[|cs| - 1].added && p in cs[|cs| - 1].removed
    ensures Lookup(FoldCommits(cs), p) == Some(Removed)
  {
    FoldIsLastWrite(cs, p);
  }

  lemma {:induction false} ExtendMembers(d: seq<string>, s: seq<string>)
    requires Distinct(d)
    ensures Distinct(Extend(d, s))
    ensures forall x :: x in Extend(d, s) <==> x in d || x in s
    decreases |s|
  {
    if s != [] {
      var init := s[..|s| - 1];
      ExtendMembers(d, init);
      assert s == init + [s[|s| - 1]];
    }
  }

  /**
   * The keys of the folded array are the listed paths, each once, in the
   * order in which the commits first name them.
   */
  lemma {:induction false} FoldKeys(cs: seq<Commit>)
    ensures Paths(FoldCommits(cs)) == Dedup(AllPaths(cs))
    ensures KeysUnique(FoldCommits(cs))
    ensures forall p :: p in Paths(FoldCommits(cs)) <==> p in AllPaths(cs)
    decreases |cs|
  {
    if cs != [] {
      var init := cs[..|cs| - 1];
      FoldKeys(init);
      ApplyCommitPaths(FoldCommits(init), cs[|cs| - 1]);
      ExtendAppend([], AllPaths(init), CommitPaths(cs[|cs| - 1]));
    }
    ExtendMembers([], AllPaths(cs));
  }

  // ---------------------------------------------------------------------
  // Folder scoping

  /** The entries whose path starts with pre, with pre cut off, in order. */
  function Strip(m: ChangeList, pre: string): ChangeList
    decreases |m|
  {
    if m == [] then []
    else
      var (p, k) := m[|m| - 1];
      Strip(m[..|m| - 1], pre) + (if HasPrefix(p, pre) then [(p[|pre|..], k)] else [])
  }

  /** The full repository path of a local name under a scope. */
  function FullPath(scope: string, local: string): string {
    if Truthy(scope) then scope + "/" + local else local
  }

  /** What handleChanges hands to its callback, for an active handler. */
  function Visible(m: ChangeList, scope: string): ChangeList {
    if Truthy(scope) then Strip(m, scope + "/") else m
  }

  lemma PrefixSplit(p: string, pre: string, local: string)
    ensures (HasPrefix(p, pre) && p[|pre|..] == local) <==> p == pre + local
  {
    if p == pre + local {
      assert p[..|pre|] == pre;
      assert p[|pre|..] == local;
    }
    if HasPrefix(p, pre) {
      assert p == p[..|pre|] + p[|pre|..];
    }
  }

  lemma {:induction false} StripMember(m: ChangeList, pre: string, local: string, k: Kind)
    ensures (local, k) in Strip(m, pre) <==> (pre + local, k) in m
    decreases |m|
  {
    if m != [] {
      var init := m[..|m| - 1];
      StripMember(init, pre, local, k);
      PrefixSplit(m[|m| - 1].0, pre, local);
      assert m == init + [m[|m| - 1]];
    }
  }

  /**
   * With a scope F, the callback sees (local, k) exactly when the change
   * set holds (F + "/" + local, k); without one it sees every entry as is.
   */
  lemma VisibleMember(m: ChangeList, scope: string, local: string, k: Kind)
    ensures (local, k) in Visible(m, scope) <==> (FullPath(scope, local), k) in m
  {
    if Truthy(scope) {
      StripMember(m, scope + "/", local, k);
      assert scope + "/" + local == (scope + "/") + local;
    }
  }

  /** Scoping keeps the order of the change set: it distributes over concatenation. */
  lemma {:induction false} VisibleAppend(a: ChangeList, b: ChangeList, scope: string)
    ensures Visible(a + b, scope) == Visible(a, scope) + Visible(b, scope)
    decreases |b|
  {
    if Truthy(scope) && b != [] {
      var init := b[..|b| - 1];
      VisibleAppend(a, init, scope);
      assert (a + b)[..|a + b| - 1] == a + init;
      assert (a + b)[|a + b| - 1] == b[|b| - 1];
    } else if Truthy(scope) {
      assert a + b == a;
    }
  }

  lemma DistinctSnoc(s: seq<string>, x: string)
    ensures Distinct(s + [x]) <==> Distinct(s) && x !in s
  {
    if Distinct(s + [x]) {
      forall i | 0 <= i < |s|
        ensures s[i] != x
      {
        assert (s + [x])[i] == s[i] && (s + [x])[|s|] == x;
      }
      forall i, j | 0 <= i < j < |s|
        ensures s[i] != s[j]
      {
        assert (s + [x])[i] == s[i] && (s + [x])[j] == s[j];
      }
    }
  }

  /** A path absent from m yields a local name absent from Strip(m, pre). */
  lemma StripFresh(m: ChangeList, pre: string, p: string)
    requires p !in Paths(m) && HasPrefix(p, pre)
    ensures p[|pre|..] !in Paths(Strip(m, pre))
  {
    var s := Strip(m, pre);
    var local := p[|pre|..];
    PrefixSplit(p, pre, local);
    forall i | 0 <= i < |s|
      ensures Paths(s)[i] != local
    {
      StripMember(m, pre, s[i].0, s[i].1);
      var j :| 0 <= j < |m| && m[j] == (pre + s[i].0, s[i].1);
      assert Paths(m)[j] == pre + s[i].0;
    }
  }

  lemma {:induction false} StripUnique(m: ChangeList, pre: string)
    requires KeysUnique(m)
    ensures KeysUnique(Strip(m, pre))
    decreases |m|
  {
    if m != [] {
      var init := m[..|m| - 1];
      var (p, k) := m[|m| - 1];
      PathsConcat(init, [(p, k)]);
      assert m == init + [(p, k)];
      DistinctSnoc(Paths(init), p);
      StripUnique(init, pre);
      var s := Strip(init, pre);
      if HasPrefix(p, pre) {
        StripFresh(init, pre, p);
        PathsConcat(s, [(p[|pre|..], k)]);
        DistinctSnoc(Paths(s), p[|pre|..]);
      } else {
        assert Strip(m, pre) == s + [];
      }
    }
  }

  lemma VisibleUnique(m: ChangeList, scope: string)
    requires KeysUnique(m)
    ensures KeysUnique(Visible(m, scope))
  {
    if Truthy(scope) {
      StripUnique(m, scope + "/");
    }
  }
}
