/**
 * WebhookPushHandler: the object a push event produces. Its fields are
 * updated in place by the fluent configuration calls; its terminal
 * operations walk the change set through handleChanges.
 *
 * A callback is modelled by the sequence of (local name, kind) pairs it
 * is called with; listChanges and pushChangesToFolder consume that
 * sequence in order.
 */
module PushHandlers {
  import opened Wrappers
  import opened PhpStrings
  import opened ChangeSets
  import opened Sync

  /** The line listChanges writes for one change. */
  function ChangeLine(path: string, kind: Kind): string {
    path + ": " + KindName(kind) + "\r\n"
  }

  function Listing(calls: ChangeList): (lines: seq<string>)
    ensures |lines| == |calls|
    ensures forall i :: 0 <= i < |calls| ==> lines[i] == ChangeLine(calls[i].0, calls[i].1)
  {
    seq(|calls|, i requires 0 <= i < |calls| => ChangeLine(calls[i].0, calls[i].1))
  }

  class PushHandler {
    var branchName: string
    var repositoryFullName: string
    var isActive: bool
    var folderName: string
    var changes: ChangeList
    var userPwd: string
    var comment: string

    /** The change set is keyed by path. */
    ghost predicate Valid()
      reads this
    {
      KeysUnique(changes)
    }

    /** What createDummy returns. */
    ghost predicate IsDummy()
      reads this
    {
      && !isActive && branchName == "" && repositoryFullName == ""
      && folderName == "" && changes == [] && userPwd == "" && comment == ""
    }

    /** The (local name, kind) pairs handleChanges passes to its callback, in order. */
    function Handled(): ChangeList
      reads this
    {
      if isActive then Visible(changes, folderName) else []
    }

    function Config(): SyncConfig
      reads this
    {
      SyncConfig(repositoryFullName, branchName, folderName, userPwd, comment)
    }

    constructor (branchName: string, repositoryFullName: string, commits: Option<seq<Commit>>)
      ensures Valid()
      ensures this.branchName == branchName && this.repositoryFullName == repositoryFullName
      ensures isActive && folderName == "" && userPwd == "" && comment == ""
      ensures changes == if commits.Some? then FoldCommits(commits.value) else []
    {
      this.branchName := branchName;
      this.repositoryFullName := repositoryFullName;
      isActive := true;
      folderName := "";
      userPwd := "";
      comment := "";
      changes := [];
      new;
      if commits.Some? {
        ParseCommits(commits.value);
      }
      FoldKeys(if commits.Some? then commits.value else []);
    }

    method ParseCommits(commits: seq<Commit>)
      modifies this`changes
      ensures changes == FoldCommits(commits)
    {
      changes := [];
      for i := 0 to |commits|
        invariant changes == FoldCommits(commits[..i])
      {
        ParseCommit(commits[i]);
        assert commits[..i + 1][..i] == commits[..i];
      }
      assert commits[..|commits|] == commits;
    }

    method ParseCommit(c: Commit)
      modifies this`changes
      ensures changes == ApplyCommit(old(changes), c)
    {
      ghost var start := changes;
      for i := 0 to |c.added|
        invariant changes == PutAll(start, c.added[..i], Added)
      {
        changes := Put(changes, c.added[i], Added);
        assert c.added[..i + 1][..i] == c.added[..i];
      }
      assert c.added[..|c.added|] == c.added;
      ghost var afterAdded := changes;
      for i := 0 to |c.modified|
        invariant changes == PutAll(afterAdded, c.modified[..i], Modified)
      {
        changes := Put(changes, c.modified[i], Modified);
        assert c.modified[..i + 1][..i] == c.modified[..i];
      }
      assert c.modified[..|c.modified|] == c.modified;
      ghost var afterModified := changes;
      for i := 0 to |c.removed|
        invariant changes == PutAll(afterModified, c.removed[..i], Removed)
      {
        changes := Put(changes, c.removed[i], Removed);
        assert c.removed[..i + 1][..i] == c.removed[..i];
      }
      assert c.removed[..|c.removed|] == c.removed;
    }

    method MakeInactiveCopy() returns (copy: PushHandler)
      requires Valid()
      ensures fresh(copy) && copy.Valid()
      ensures copy.branchName == branchName && copy.repositoryFullName == repositoryFullName
      ensures !copy.isActive && copy.folderName == "" && copy.comment == ""
      ensures copy.changes == changes && copy.userPwd == userPwd
    {
      copy := new PushHandler(branchName, repositoryFullName, None);
      copy.isActive := false;
      copy.changes := changes;
      copy.userPwd := userPwd;
    }

    static method CreateDummy() returns (dummy: PushHandler)
      ensures fresh(dummy) && dummy.Valid() && dummy.IsDummy()
    {
      dummy := new PushHandler("", "", None);
      dummy.isActive := false;
    }

    /**
     * On a handler without a scope, sets the scope and returns the same
     * handler. On a scoped handler, leaves it untouched and returns a new,
     * inactive handler scoped to folderName that shares the change set,
     * branch, repository and credentials but not the comment.
     */
    method ForChangesInFolder(folderName: string) returns (h: PushHandler)
      requires Valid()
      modifies this
      decreases if Truthy(this.folderName) then 1 else 0
      ensures h.Valid()
      ensures h.folderName == folderName
      ensures Truthy(old(this.folderName)) ==>
        && fresh(h) && unchanged(this) && !h.isActive && h.comment == ""
        && h.branchName == branchName && h.repositoryFullName == repositoryFullName
        && h.changes == changes && h.userPwd == userPwd
      ensures !Truthy(old(this.folderName)) ==>
        && h == this && isActive == old(isActive)
        && branchName == old(branchName) && repositoryFullName == old(repositoryFullName)
        && changes == old(changes) && userPwd == old(userPwd) && comment == old(comment)
    {
      if Truthy(this.folderName) {
        var copy := MakeInactiveCopy();
        h := copy.ForChangesInFolder(folderName);
        return;
      }
      this.folderName := folderName;
      h := this;
    }

    method SetGitHubCredentials(username: string, password: string) returns (h: PushHandler)
      modifies this`userPwd
      ensures h == this && userPwd == username + ":" + password
      ensures Credentials(userPwd) == Some(username + ":" + password)
    {
      userPwd := username + ":" + password;
      assert userPwd[|username|] == ':';
      h := this;
    }

    method SetComment(comment: string) returns (h: PushHandler)
      modifies this`comment
      ensures h == this && this.comment == comment
    {
      this.comment := comment;
      h := this;
    }

    /**
     * handleChanges: an inactive handler calls back nothing; an active one
     * calls back once per visible change, in change-set order.
     */
    method HandleChanges() returns (calls: ChangeList)
      ensures calls == Handled()
      ensures !isActive ==> calls == []
      ensures isActive && !Truthy(folderName) ==> calls == changes
      ensures isActive ==> forall local, kind ::
        (local, kind) in calls <==> (FullPath(folderName, local), kind) in changes
    {
      calls := [];
      if !isActive {
        return;
      }
      var pathStart := if Truthy(folderName) then folderName + "/" else "";
      for i := 0 to |changes|
        invariant calls == Visible(changes[..i], folderName)
      {
        var (path, kind) := changes[i];
        if Truthy(folderName) {
          if |path| >= |pathStart| && path[..|pathStart|] == pathStart {
            calls := calls + [(path[|pathStart|..], kind)];
          }
        } else {
          calls := calls + [(path, kind)];
        }
        assert changes[..i + 1][..i] == changes[..i];
      }
      assert changes[..|changes|] == changes;
      forall local, kind
        ensures (local, kind) in calls <==> (FullPath(folderName, local), kind) in changes
      {
        VisibleMember(changes, folderName, local, kind);
      }
    }

    method InvokeForEachChange() returns (calls: ChangeList)
      ensures calls == Handled()
      ensures !isActive ==> calls == []
    {
      calls := HandleChanges();
    }

    /** Passes the whole change set, whatever the scope and whether or not the handler is active. */
    method InvokeWithArrayOfChanges() returns (all: ChangeList)
      ensures all == changes
    {
      all := changes;
    }

    /** One `path: kind` line per visible change; nothing for an inactive handler. */
    method ListChanges() returns (lines: seq<string>)
      ensures lines == Listing(Handled())
      ensures !isActive ==> lines == []
    {
      var calls := HandleChanges();
      lines := [];
      for i := 0 to |calls|
        invariant lines == Listing(calls[..i])
      {
        lines := lines + [ChangeLine(calls[i].0, calls[i].1)];
      }
      assert calls[..|calls|] == calls;
    }

    /**
     * pushChange: the target is folder/local. A removal deletes the target;
     * any other change downloads the raw-content URL into it, sending the
     * credentials when they are set, and then applies the comment when
     * one is set. No other file changes.
     */
    method PushChange(local: string, kind: Kind, folder: string, fs: FileSystem, fetch: Fetch)
      returns (fs': FileSystem)
      ensures var target := TargetPath(folder, local);
        && (kind == Removed ==> fs' == fs - {target})
        && (kind != Removed ==> fs' == fs[target := Commented(Config(), target,
              fetch(SourceUrl(Config(), local), Credentials(userPwd)))])
      ensures fs' == ApplyChange(Config(), fetch, folder, fs, local, kind)
    {
      var targetPath := TargetPath(folder, local);
      if kind == Removed {
        fs' := fs - {targetPath};
      } else {
        var sourceUrl := RawContentHost + repositoryFullName + "/" + branchName + "/";
        if Truthy(folderName) {
          sourceUrl := sourceUrl + folderName + "/";
        }
        sourceUrl := sourceUrl + local;
        assert sourceUrl == SourceUrl(Config(), local);
        var userPwdOption := if Truthy(userPwd) then Some(userPwd) else None;
        var content := fetch(sourceUrl, userPwdOption);
        if Truthy(comment) {
          content := ApplyComment(targetPath, comment, content);
        }
        fs' := fs[targetPath := content];
      }
    }

    /** Every visible change pushed in order; an inactive handler leaves the filesystem as it was. */
    method PushChangesToFolder(folder: string, fs: FileSystem, fetch: Fetch) returns (fs': FileSystem)
      ensures fs' == ApplyChanges(Config(), fetch, folder, fs, Handled())
      ensures !isActive ==> fs' == fs
    {
      var calls := HandleChanges();
      fs' := fs;
      for i := 0 to |calls|
        invariant fs' == ApplyChanges(Config(), fetch, folder, fs, calls[..i])
      {
        fs' := PushChange(calls[i].0, calls[i].1, folder, fs', fetch);
        assert calls[..i + 1][..i] == calls[..i];
      }
      assert calls[..|calls|] == calls;
    }
  }
}
