/**
 * What pushChange does to the local filesystem: the URL it downloads from,
 * the file it writes or deletes, and the comment it injects afterwards.
 * The filesystem is a map from file path to contents; the download is a
 * function of the URL and the basic-auth credentials sent with it.
 */
module Sync {
  import opened Wrappers
  import opened PhpStrings
  import opened ChangeSets

  const RawContentHost := "https://raw.githubusercontent.com/"

  /** A GET of a URL, with `user:pass` credentials or without, giving the body written to disk. */
  type Fetch = (string, Option<string>) -> string

  type FileSystem = map<string, string>

  /** The handler fields pushChange reads. */
  datatype SyncConfig = SyncConfig(
    repositoryFullName: string,
    branchName: string,
    folderName: string,
    userPwd: string,
    comment: string)

  /** Where a change is downloaded from: the raw-content URL of the full repository path. */
  function SourceUrl(cfg: SyncConfig, local: string): string {
    RawContentHost + cfg.repositoryFullName + "/" + cfg.branchName + "/"
      + (if Truthy(cfg.folderName) then cfg.folderName + "/" else "") + local
  }

  function TargetPath(folder: string, local: string): string {
    folder + "/" + local
  }

  /** Credentials are passed to the transfer only when the stored string is truthy. */
  function Credentials(userPwd: string): Option<string> {
    if Truthy(userPwd) then Some(userPwd) else None
  }

  // ---------------------------------------------------------------------
  // Comment injection

  /** The opening tag a PHP file must start with for the comment to go after it. */
  const PhpOpening := "<?php"

  function BlockComment(comment: string): string {
    "/* " + comment + " */"
  }

  /**
   * applyComment: by the lower-cased extension of path, a PHP file that
   * opens with `<?php` gets the comment on a new line after that tag; CSS
   * and JS files get it as a first line. The three checks run one after
   * another on the text the previous one left.
   */
  function ApplyComment(path: string, comment: string, content: string): string {
    CommentByExtension(Lower(path), comment, content)
  }

  /** The three checks of applyComment on the already lower-cased path. */
  function CommentByExtension(lower: string, comment: string, content: string): string {
    var afterPhp :=
      if HasSuffix(lower, ".php") && HasPrefix(content, PhpOpening)
      then PhpOpening + "\r\n" + BlockComment(comment) + content[5..]
      else content;
    var afterCss :=
      if HasSuffix(lower, ".css") then BlockComment(comment) + "\r\n" + afterPhp else afterPhp;
    if HasSuffix(lower, ".js") then BlockComment(comment) + "\r\n" + afterCss else afterCss
  }

  /** The inverse of ApplyComment: takes an injected comment back out. */
  function RemoveComment(path: string, comment: string, text: string): string {
    UncommentByExtension(Lower(path), comment, text)
  }

  function UncommentByExtension(lower: string, comment: string, text: string): string {
    var header := BlockComment(comment) + "\r\n";
    var phpHeader := PhpOpening + "\r\n" + BlockComment(comment);
    if (HasSuffix(lower, ".css") || HasSuffix(lower, ".js")) && HasPrefix(text, header) then
      text[|header|..]
    else if HasSuffix(lower, ".php") && HasPrefix(text, phpHeader) then
      PhpOpening + text[|phpHeader|..]
    else
      text
  }

  /** At most one of the three extensions a path can end with. */
  lemma ExtensionsExclusive(s: string)
    ensures !(HasSuffix(s, ".php") && HasSuffix(s, ".css"))
    ensures !(HasSuffix(s, ".php") && HasSuffix(s, ".js"))
    ensures !(HasSuffix(s, ".css") && HasSuffix(s, ".js"))
  {
    if HasSuffix(s, ".php") && |s| >= 4 {
      assert s[|s| - 3] == ".php"[1];
    }
    if HasSuffix(s, ".css") && |s| >= 4 {
      assert s[|s| - 3] == ".css"[1];
    }
  }

  /** A PHP file gains the comment after its opening tag, and only when it starts with `<?php`. */
  lemma CommentOnPhp(path: string, comment: string, content: string)
    requires HasSuffix(Lower(path), ".php")
    ensures ApplyComment(path, comment, content) ==
      if HasPrefix(content, "<?php") then "<?php\r\n/* " + comment + " */" + content[5..] else content
  {
    ExtensionsExclusive(Lower(path));
  }

  /** A CSS or JS file gains the comment as its first line, whatever it holds. */
  lemma CommentOnCssOrJs(path: string, comment: string, content: string)
    requires HasSuffix(Lower(path), ".css") || HasSuffix(Lower(path), ".js")
    ensures ApplyComment(path, comment, content) == "/* " + comment + " */\r\n" + content
  {
    ExtensionsExclusive(Lower(path));
  }

  /** Any other file is left as it was. */
  lemma CommentOnOther(path: string, comment: string, content: string)
    requires !HasSuffix(Lower(path), ".php") && !HasSuffix(Lower(path), ".css") && !HasSuffix(Lower(path), ".js")
    ensures ApplyComment(path, comment, content) == content
  {
  }

  lemma LowerTwice(s: string)
    ensures Lower(Lower(s)) == Lower(s)
  {
    forall i | 0 <= i < |s|
      ensures Lower(Lower(s))[i] == Lower(s)[i]
    {
    }
  }

  /** The extension check does not depend on the case of the path. */
  lemma CommentIgnoresCase(path: string, comment: string, content: string)
    ensures ApplyComment(Lower(path), comment, content) == ApplyComment(path, comment, content)
  {
    LowerTwice(path);
  }

  lemma PrefixCut(h: string, c: string)
    ensures HasPrefix(h + c, h) && (h + c)[|h|..] == c
  {
    assert (h + c)[..|h|] == h;
  }

  /** The injected comment can always be taken out again: nothing of the file is lost. */
  lemma CommentRoundTrip(path: string, comment: string, content: string)
    ensures RemoveComment(path, comment, ApplyComment(path, comment, content)) == content
  {
    var lower := Lower(path);
    var header := BlockComment(comment) + "\r\n";
    var phpHeader := PhpOpening + "\r\n" + BlockComment(comment);
    var text := CommentByExtension(lower, comment, content);
    ExtensionsExclusive(lower);
    if HasSuffix(lower, ".css") || HasSuffix(lower, ".js") {
      assert text == header + content;
      PrefixCut(header, content);
    } else if HasSuffix(lower, ".php") {
      if HasPrefix(content, PhpOpening) {
        assert text == phpHeader + content[5..];
        PrefixCut(phpHeader, content[5..]);
        assert content == content[..5] + content[5..];
      } else {
        assert text == content;
        assert phpHeader[..5] == PhpOpening;
      }
    }
  }

  // ---------------------------------------------------------------------
  // Applying changes to the filesystem

  /** A downloaded body after the comment step, which runs only for a truthy comment. */
  function Commented(cfg: SyncConfig, target: string, body: string): string {
    if Truthy(cfg.comment) then ApplyComment(target, cfg.comment, body) else body
  }

  /** The bytes that end up in the target file of a download. */
  function Delivered(cfg: SyncConfig, fetch: Fetch, folder: string, local: string): string {
    Commented(cfg, TargetPath(folder, local), fetch(SourceUrl(cfg, local), Credentials(cfg.userPwd)))
  }

  /** One pushChange: delete the target of a removal, otherwise download into it. */
  function ApplyChange(cfg: SyncConfig, fetch: Fetch, folder: string, fs: FileSystem, local: string, kind: Kind): FileSystem {
    var target := TargetPath(folder, local);
    if kind == Removed then fs - {target} else fs[target := Delivered(cfg, fetch, folder, local)]
  }

  /** pushChange for every call handleChanges makes, in order. */
  function ApplyChanges(cfg: SyncConfig, fetch: Fetch, folder: string, fs: FileSystem, calls: ChangeList): FileSystem
    decreases |calls|
  {
    if calls == [] then fs
    else
      var last := calls[|calls| - 1];
      ApplyChange(cfg, fetch, folder, ApplyChanges(cfg, fetch, folder, fs, calls[..|calls| - 1]), last.0, last.1)
  }

  /** A file that is the target of no call is left exactly as it was. */
  lemma {:induction false} ApplyChangesFrame(cfg: SyncConfig, fetch: Fetch, folder: string, fs: FileSystem, calls: ChangeList, file: string)
    requires forall c :: c in calls ==> TargetPath(folder, c.0) != file
    ensures var r := ApplyChanges(cfg, fetch, folder, fs, calls);
      (file in r <==> file in fs) && (file in fs ==> r[file] == fs[file])
    decreases |calls|
  {
    if calls != [] {
      var init := calls[..|calls| - 1];
      assert forall c :: c in init ==> c in calls;
      assert calls[|calls| - 1] in calls;
      ApplyChangesFrame(cfg, fetch, folder, fs, init, file);
    }
  }

  lemma KeysUniquePrefix(m: ChangeList, n: nat)
    requires KeysUnique(m) && n <= |m|
    ensures KeysUnique(m[..n])
  {
    forall i, j | 0 <= i < j < n
      ensures Paths(m[..n])[i] != Paths(m[..n])[j]
    {
      assert Paths(m[..n])[i] == Paths(m)[i] && Paths(m[..n])[j] == Paths(m)[j];
    }
  }

  lemma TargetInjective(folder: string, a: string, b: string)
    ensures TargetPath(folder, a) == TargetPath(folder, b) <==> a == b
  {
    var pre := folder + "/";
    assert TargetPath(folder, a) == pre + a && TargetPath(folder, b) == pre + b;
    if pre + a == pre + b {
      assert a == (pre + a)[|pre|..] && b == (pre + b)[|pre|..];
    }
  }

  /**
   * After all calls, the target of every call reflects that call: a
   * removal leaves no file, any other change leaves the downloaded (and
   * commented) body. Local names are unique, so no two calls share a target.
   */
  lemma {:induction false} ApplyChangesAt(cfg: SyncConfig, fetch: Fetch, folder: string, fs: FileSystem, calls: ChangeList, i: nat)
    requires KeysUnique(calls) && i < |calls|
    ensures var r := ApplyChanges(cfg, fetch, folder, fs, calls);
      var target := TargetPath(folder, calls[i].0);
      && (calls[i].1 == Removed ==> target !in r)
      && (calls[i].1 != Removed ==> target in r && r[target] == Delivered(cfg, fetch, folder, calls[i].0))
    decreases |calls|
  {
    var n := |calls| - 1;
    var init := calls[..n];
    var r0 := ApplyChanges(cfg, fetch, folder, fs, init);
    assert ApplyChanges(cfg, fetch, folder, fs, calls) == ApplyChange(cfg, fetch, folder, r0, calls[n].0, calls[n].1);
    if i < n {
      KeysUniquePrefix(calls, n);
      ApplyChangesAt(cfg, fetch, folder, fs, init, i);
      assert Paths(calls)[i] != Paths(calls)[n];
      TargetInjective(folder, calls[i].0, calls[n].0);
    }
  }


  /** The URL names the full repository path: the scope is put back in front of the local name. */
  lemma SourceUrlNamesFullPath(cfg: SyncConfig, local: string)
    ensures SourceUrl(cfg, local) ==
      RawContentHost + cfg.repositoryFullName + "/" + cfg.branchName + "/" + FullPath(cfg.folderName, local)
  {
    var base := RawContentHost + cfg.repositoryFullName + "/" + cfg.branchName + "/";
    if Truthy(cfg.folderName) {
      assert base + (cfg.folderName + "/") + local == base + (cfg.folderName + "/" + local);
    } else {
      assert base + "" + local == base + local;
    }
  }

  /**
   * Every change of the change set that the scope lets through lands at
   * folder/local: a removal deletes that file, any other change downloads
   * the raw-content URL of its full repository path into it.
   */
  lemma SyncedChange(cfg: SyncConfig, fetch: Fetch, folder: string, fs: FileSystem, m: ChangeList, local: string, kind: Kind)
    requires KeysUnique(m)
    requires (FullPath(cfg.folderName, local), kind) in m
    ensures var r := ApplyChanges(cfg, fetch, folder, fs, Visible(m, cfg.folderName));
      var target := TargetPath(folder, local);
      var url := RawContentHost + cfg.repositoryFullName + "/" + cfg.branchName + "/" + FullPath(cfg.folderName, local);
      && (kind == Removed ==> target !in r)
      && (kind != Removed ==> target in r && r[target] == Commented(cfg, target, fetch(url, Credentials(cfg.userPwd))))
  {
    var calls := Visible(m, cfg.folderName);
    VisibleMember(m, cfg.folderName, local, kind);
    VisibleUnique(m, cfg.folderName);
    var i :| 0 <= i < |calls| && calls[i] == (local, kind);
    ApplyChangesAt(cfg, fetch, folder, fs, calls, i);
    SourceUrlNamesFullPath(cfg, local);
  }

  /** Pushing changes into a folder never touches a file outside it. */
  lemma SyncKeepsOutsideFiles(cfg: SyncConfig, fetch: Fetch, folder: string, fs: FileSystem, calls: ChangeList, file: string)
    requires !HasPrefix(file, folder + "/")
    ensures var r := ApplyChanges(cfg, fetch, folder, fs, calls);
      (file in r <==> file in fs) && (file in fs ==> r[file] == fs[file])
  {
    forall c | c in calls
      ensures TargetPath(folder, c.0) != file
    {
      var t := TargetPath(folder, c.0);
      assert t[..|folder + "/"|] == folder + "/";
    }
    ApplyChangesFrame(cfg, fetch, folder, fs, calls, file);
  }
}
