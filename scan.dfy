/** The repository scanner: the search for git repositories below a
    folder, and the merge of newly found paths into the stored list. A
    directory tree is given as a value, with each directory's entries in
    the order the operating system lists them. */
module Scan {
  import opened Results
  import opened Seqs

  /** SliceContins: whether `value` occurs in `slice`. */
  function SliceContains(slice: seq<string>, value: string): (r: bool)
    ensures r <==> value in slice
    decreases |slice|
  {
    if slice == [] then false
    else if slice[0] == value then true
    else SliceContains(slice[1..], value)
  }

  /** JoinSlices: each path of `incoming`, in order, is appended to `existing`
      unless the list built so far already holds it. */
  function Join(incoming: seq<string>, existing: seq<string>): seq<string>
    decreases |incoming|
  {
    if incoming == [] then existing
    else
      var acc := Join(incoming[..|incoming| - 1], existing);
      var n := incoming[|incoming| - 1];
      if SliceContains(acc, n) then acc else acc + [n]
  }

  /** The merged list starts with the existing list, holds every incoming path,
      and holds nothing that is neither existing nor incoming. */
  lemma {:induction false} JoinContents(incoming: seq<string>, existing: seq<string>)
    ensures |Join(incoming, existing)| >= |existing|
    ensures Join(incoming, existing)[..|existing|] == existing
    ensures forall n :: n in incoming ==> n in Join(incoming, existing)
    ensures forall x :: x in Join(incoming, existing) <==> x in existing || x in incoming
    decreases |incoming|
  {
    if incoming != [] {
      var init := incoming[..|incoming| - 1];
      JoinContents(init, existing);
      assert incoming == init + [incoming[|incoming| - 1]];
      var acc := Join(init, existing);
      if !SliceContains(acc, incoming[|incoming| - 1]) {
        assert (acc + [incoming[|incoming| - 1]])[..|existing|] == acc[..|existing|];
      }
    }
  }

  /** Merging into a list without repetitions gives a list without
      repetitions, even when `incoming` repeats a path. */
  lemma {:induction false} JoinNoDuplicates(incoming: seq<string>, existing: seq<string>)
    requires NoDuplicates(existing)
    ensures NoDuplicates(Join(incoming, existing))
    decreases |incoming|
  {
    if incoming != [] {
      JoinNoDuplicates(incoming[..|incoming| - 1], existing);
    }
  }

  /** Merging paths that are all present already changes nothing. */
  lemma {:induction false} JoinPresent(incoming: seq<string>, existing: seq<string>)
    requires forall n :: n in incoming ==> n in existing
    ensures Join(incoming, existing) == existing
    decreases |incoming|
  {
    if incoming != [] {
      JoinPresent(incoming[..|incoming| - 1], existing);
    }
  }

  /** Merging the same paths twice is the same as merging them once. */
  lemma JoinIdempotent(incoming: seq<string>, existing: seq<string>)
    ensures Join(incoming, Join(incoming, existing)) == Join(incoming, existing)
  {
    JoinContents(incoming, existing);
    JoinPresent(incoming, Join(incoming, existing));
  }

  /** Merging ["/r1", "/r2"] into ["/r2", "/r3"] gives ["/r2", "/r3", "/r1"]. */
  lemma JoinExample()
    ensures Join(["/r1", "/r2"], ["/r2", "/r3"]) == ["/r2", "/r3", "/r1"]
  {
    var incoming := ["/r1", "/r2"];
    assert incoming[..1] == ["/r1"];
    assert incoming[..1][..0] == [];
    assert "/r1" != "/r2" && "/r1" != "/r3" by {
      assert "/r1"[2] != "/r2"[2] && "/r1"[2] != "/r3"[2];
    }
    assert Join(incoming[..1], ["/r2", "/r3"]) == ["/r2", "/r3", "/r1"];
  }

  /** JoinSlices. */
  method JoinSlices(incoming: seq<string>, existing: seq<string>) returns (r: seq<string>)
    ensures r == Join(incoming, existing)
  {
    r := existing;
    for i := 0 to |incoming|
      invariant r == Join(incoming[..i], existing)
    {
      var n := incoming[i];
      assert incoming[..i + 1][..i] == incoming[..i];
      if !SliceContains(r, n) {
        r := r + [n];
      }
    }
    assert incoming[..|incoming|] == incoming;
  }

  /** What the scanner finds at a path: a plain file, a directory with its
      entries in listing order, or a directory that cannot be opened or
      listed. */
  datatype Node = File | Directory(entries: seq<Entry>) | Unlistable

  /** One directory entry: its name and what it is. */
  datatype Entry = Entry(name: string, node: Node)

  /** strings.TrimSuffix: `s` without `suffix` when it ends with it. */
  function TrimSuffix(s: string, suffix: string): (r: string)
    ensures |suffix| <= |s| && s[|s| - |suffix|..] == suffix ==> r + suffix == s
    ensures !(|suffix| <= |s| && s[|s| - |suffix|..] == suffix) ==> r == s
  {
    if |suffix| <= |s| && s[|s| - |suffix|..] == suffix then s[..|s| - |suffix|] else s
  }

  /** Trimming "/.git" off a path that was built by appending it gives the
      path back. */
  lemma TrimGit(folder: string)
    ensures TrimSuffix(folder + "/.git", "/.git") == folder
  {
    var s := folder + "/.git";
    assert s[|s| - 5..] == "/.git";
    assert s[..|s| - 5] == folder;
  }

  /** Whether `os.Open` can name the folder once its trailing "/" is
      trimmed: the empty path, which "/" trims to, cannot be opened. */
  predicate Openable(folder: string)
  {
    TrimSuffix(folder, "/") != ""
  }

  /** ScanGitFolders on `folder`: the trailing "/" is trimmed and the
      directory's entries are visited in order; an empty trimmed path, or a
      directory that cannot be opened or listed, stops the scan. The node
      is what the trimmed path opens. */
  function ScanFolder(folders: seq<string>, folder: string, node: Node): Result<seq<string>>
    decreases node, 1
  {
    var trimmed := TrimSuffix(folder, "/");
    if trimmed != "" && node.Directory? then ScanEntries(folders, trimmed, node, 0) else Failure(DirectoryUnreadable)
  }

  /** The entry loop of ScanGitFolders from entry `i` on: plain files are
      skipped; a ".git" directory records the folder and is not entered;
      "vendor" and "node_modules" are not entered; every other directory is
      scanned with the folders found so far. */
  function ScanEntries(folders: seq<string>, folder: string, dir: Node, i: nat): Result<seq<string>>
    requires dir.Directory? && i <= |dir.entries|
    decreases dir, 0, |dir.entries| - i
  {
    if i == |dir.entries| then Success(folders)
    else
      var file := dir.entries[i];
      if file.node.File? then ScanEntries(folders, folder, dir, i + 1)
      else
        var path := folder + "/" + file.name;
        if file.name == ".git" then
          ScanEntries(folders + [TrimSuffix(path, "/.git")], folder, dir, i + 1)
        else if file.name == "vendor" || file.name == "node_modules" then
          ScanEntries(folders, folder, dir, i + 1)
        else
          match ScanFolder(folders, path, file.node)
          case Failure(f) => Failure(f)
          case Success(more) => ScanEntries(more, folder, dir, i + 1)
  }

  /** The repositories below a folder, without an accumulator: the
      trimmed folder for its ".git" entry and, in listing order, the
      repositories below each directory that is entered. */
  function Repos(folder: string, node: Node): Result<seq<string>>
    decreases node, 1
  {
    if Openable(folder) && node.Directory? then ReposFrom(TrimSuffix(folder, "/"), node, 0) else Failure(DirectoryUnreadable)
  }

  /** The repositories contributed by entries `i` onwards. */
  function ReposFrom(folder: string, dir: Node, i: nat): Result<seq<string>>
    requires dir.Directory? && i <= |dir.entries|
    decreases dir, 0, |dir.entries| - i
  {
    if i == |dir.entries| then Success([])
    else
      match Found(folder, dir, i)
      case Failure(f) => Failure(f)
      case Success(here) =>
        match ReposFrom(folder, dir, i + 1)
        case Failure(f) => Failure(f)
        case Success(rest) => Success(here + rest)
  }

  /** The repositories contributed by entry `i` alone. */
  function Found(folder: string, dir: Node, i: nat): Result<seq<string>>
    requires dir.Directory? && i < |dir.entries|
    decreases dir, 0, 0
  {
    var file := dir.entries[i];
    if file.node.File? || file.name == "vendor" || file.name == "node_modules" then Success([])
    else if file.name == ".git" then Success([folder])
    else Repos(folder + "/" + file.name, file.node)
  }

  /** Whether the scan descends into an entry: a directory that is not
      ".git", "vendor" or "node_modules". */
  predicate Entered(e: Entry)
  {
    !e.node.File? && e.name != ".git" && e.name != "vendor" && e.name != "node_modules"
  }

  /** A directory that can be listed, and every directory the scan enters
      below it too. */
  predicate Healthy(node: Node)
    decreases node
  {
    node.Directory? && forall i :: 0 <= i < |node.entries| && Entered(node.entries[i]) ==> Healthy(node.entries[i].node)
  }

  /** The scan fails exactly when its folder trims to the empty path or
      it meets a directory it cannot open or list, which is never one below
      ".git", "vendor" or "node_modules". */
  lemma {:induction false} ReposHealthy(folder: string, node: Node)
    ensures Repos(folder, node).Success? <==> Openable(folder) && Healthy(node)
    decreases node, 1
  {
    if Openable(folder) && node.Directory? {
      ReposFromHealthy(TrimSuffix(folder, "/"), node, 0);
    }
  }

  /** The same for the entry loop of a folder that was opened, so is not
      the empty path: every child path is openable too. */
  lemma {:induction false} ReposFromHealthy(folder: string, dir: Node, i: nat)
    requires folder != ""
    requires dir.Directory? && i <= |dir.entries|
    ensures ReposFrom(folder, dir, i).Success?
      <==> forall j :: i <= j < |dir.entries| && Entered(dir.entries[j]) ==> Healthy(dir.entries[j].node)
    decreases dir, 0, |dir.entries| - i
  {
    if i < |dir.entries| {
      ReposFromHealthy(folder, dir, i + 1);
      var file := dir.entries[i];
      if Entered(file) {
        TrimUnder(folder, file.name);
        ReposHealthy(folder + "/" + file.name, file.node);
      }
    }
  }

  /** `folders` followed by what was found, or the failure. */
  function Prepend(folders: seq<string>, found: Result<seq<string>>): Result<seq<string>>
  {
    match found
    case Failure(f) => Failure(f)
    case Success(s) => Success(folders + s)
  }

  /** The scan appends to the incoming list exactly what is found below the
      folder; in particular the incoming list is a prefix of the result. */
  lemma {:induction false} ScanIsRepos(folders: seq<string>, folder: string, node: Node)
    ensures ScanFolder(folders, folder, node) == Prepend(folders, Repos(folder, node))
    decreases node, 1
  {
    if Openable(folder) && node.Directory? {
      ScanEntriesIsRepos(folders, TrimSuffix(folder, "/"), node, 0);
    }
  }

  lemma {:induction false} ScanEntriesIsRepos(folders: seq<string>, folder: string, dir: Node, i: nat)
    requires dir.Directory? && i <= |dir.entries|
    ensures ScanEntries(folders, folder, dir, i) == Prepend(folders, ReposFrom(folder, dir, i))
    decreases dir, 0, |dir.entries| - i
  {
    if i < |dir.entries| {
      var file := dir.entries[i];
      if file.node.File? || file.name == "vendor" || file.name == "node_modules" {
        ScanEntriesIsRepos(folders, folder, dir, i + 1);
        PrependEmpty(folders, ReposFrom(folder, dir, i + 1));
      } else if file.name == ".git" {
        assert folder + "/" + file.name == folder + "/.git";
        TrimGit(folder);
        ScanEntriesIsRepos(folders + [folder], folder, dir, i + 1);
        PrependAppend(folders, [folder], ReposFrom(folder, dir, i + 1));
      } else {
        var path := folder + "/" + file.name;
        ScanIsRepos(folders, path, file.node);
        if Repos(path, file.node).Success? {
          var here := Repos(path, file.node).value;
          ScanEntriesIsRepos(folders + here, folder, dir, i + 1);
          PrependAppend(folders, here, ReposFrom(folder, dir, i + 1));
        }
      }
    } else {
      assert folders + [] == folders;
    }
  }

  lemma PrependEmpty(folders: seq<string>, found: Result<seq<string>>)
    ensures Prepend(folders, match found case Failure(f) => Failure(f) case Success(rest) => Success([] + rest)) == Prepend(folders, found)
  {
    if found.Success? {
      assert [] + found.value == found.value;
    }
  }

  lemma PrependAppend(folders: seq<string>, here: seq<string>, found: Result<seq<string>>)
    ensures Prepend(folders + here, found)
      == Prepend(folders, match found case Failure(f) => Failure(f) case Success(rest) => Success(here + rest))
  {
    if found.Success? {
      assert folders + here + found.value == folders + (here + found.value);
    }
  }

  /** Every repository found below a folder lies below its trimmed path:
      each found path starts with it. */
  lemma {:induction false} ReposUnder(folder: string, node: Node)
    ensures Repos(folder, node).Success? ==>
      forall p :: p in Repos(folder, node).value ==> IsPrefix(TrimSuffix(folder, "/"), p)
    decreases node, 1
  {
    if Openable(folder) && node.Directory? {
      ReposFromUnder(TrimSuffix(folder, "/"), node, 0);
    }
  }

  lemma {:induction false} ReposFromUnder(folder: string, dir: Node, i: nat)
    requires dir.Directory? && i <= |dir.entries|
    ensures ReposFrom(folder, dir, i).Success? ==>
      forall p :: p in ReposFrom(folder, dir, i).value ==> IsPrefix(folder, p)
    decreases dir, 0, |dir.entries| - i
  {
    if i < |dir.entries| {
      ReposFromUnder(folder, dir, i + 1);
      var file := dir.entries[i];
      if !(file.node.File? || file.name == "vendor" || file.name == "node_modules" || file.name == ".git") {
        var path := folder + "/" + file.name;
        ReposUnder(path, file.node);
        if Repos(path, file.node).Success? {
          forall p | p in Repos(path, file.node).value
            ensures IsPrefix(folder, p)
          {
            TrimUnder(folder, file.name);
            PrefixTransitive(folder, TrimSuffix(path, "/"), p);
          }
        }
      }
      assert IsPrefix(folder, folder);
    }
  }

  /** `a` is a prefix of `b`. */
  predicate IsPrefix(a: string, b: string)
  {
    |a| <= |b| && b[..|a|] == a
  }

  lemma PrefixTransitive(a: string, b: string, c: string)
    requires IsPrefix(a, b) && IsPrefix(b, c)
    ensures IsPrefix(a, c)
  {
    assert c[..|a|] == c[..|b|][..|a|];
  }

  /** The child path `folder + "/" + name`, with one trailing "/"
      trimmed, still starts with `folder`. */
  lemma TrimUnder(folder: string, name: string)
    ensures IsPrefix(folder, TrimSuffix(folder + "/" + name, "/"))
  {
    var s := folder + "/" + name;
    assert s[..|folder|] == folder;
    var t := TrimSuffix(s, "/");
    assert |t| >= |s| - 1;
    assert t == s || t == s[..|s| - 1];
    assert t[..|folder|] == folder;
  }

  /** RecursiveScanFolder: the scan started with an empty list. */
  function RecursiveScanFolder(folder: string, node: Node): Result<seq<string>>
  {
    ScanFolder([], folder, node)
  }

  /** A tree holding root/.git, root/sub/.git and root/vendor/.git, listed
      in that order: the scan finds root and root/sub, and not the
      repository inside vendor. */
  lemma ScanExample()
    ensures var sub := Directory([Entry(".git", Directory([]))]);
      var tree := Directory([Entry(".git", Directory([])), Entry("sub", sub), Entry("vendor", sub)]);
      RecursiveScanFolder("root", tree) == Success(["root", "root/sub"])
  {
    var sub := Directory([Entry(".git", Directory([]))]);
    var tree := Directory([Entry(".git", Directory([])), Entry("sub", sub), Entry("vendor", sub)]);
    ScanIsRepos([], "root", tree);
    NoSlash("root");
    NoSlash("root/sub");
    assert ".git" != "vendor" && ".git" != "node_modules" by {
      assert ".git"[0] != "vendor"[0] && ".git"[0] != "node_modules"[0];
    }
    assert "sub" != ".git" && "sub" != "vendor" && "sub" != "node_modules" by {
      assert "sub"[0] != ".git"[0] && "sub"[0] != "vendor"[0] && "sub"[0] != "node_modules"[0];
    }
    assert ReposFrom("root/sub", sub, 1) == Success([]);
    assert Found("root/sub", sub, 0) == Success(["root/sub"]);
    assert ["root/sub"] + [] == ["root/sub"];
    assert ReposFrom("root/sub", sub, 0) == Success(["root/sub"]);
    assert "root" + "/" + "sub" == "root/sub";
    assert Repos("root/sub", sub) == Success(["root/sub"]);
    assert Found("root", tree, 2) == Success([]);
    assert ReposFrom("root", tree, 3) == Success([]);
    var none: seq<string> := [];
    assert none + none == none;
    assert ReposFrom("root", tree, 2) == Success([]);
    assert Found("root", tree, 1) == Success(["root/sub"]);
    assert ReposFrom("root", tree, 1) == Success(["root/sub"]);
    assert Found("root", tree, 0) == Success(["root"]);
    assert ["root"] + ["root/sub"] == ["root", "root/sub"];
    assert ReposFrom("root", tree, 0) == Success(["root", "root/sub"]);
    assert [] + ["root", "root/sub"] == ["root", "root/sub"];
  }

  /** The root "/" trims to the empty path, which cannot be opened, so a
      scan started there stops whatever the tree holds. */
  lemma RootFails(node: Node)
    ensures RecursiveScanFolder("/", node) == Failure(DirectoryUnreadable)
    ensures !Openable("/") && !Openable("")
  {
    assert TrimSuffix("/", "/") == "";
  }

  /** Only the kind of a ".git", "vendor" or "node_modules" directory
      matters: replacing it by any other directory, or by one that cannot
      be listed, leaves what the scan finds unchanged. */
  lemma PrunedIgnored(folder: string, dir: Node, i: nat, other: Node)
    requires dir.Directory? && i < |dir.entries|
    requires dir.entries[i].name in [".git", "vendor", "node_modules"]
    requires !dir.entries[i].node.File? && !other.File?
    ensures Repos(folder, Directory(dir.entries[i := Entry(dir.entries[i].name, other)])) == Repos(folder, dir)
  {
    var changed := Directory(dir.entries[i := Entry(dir.entries[i].name, other)]);
    if Openable(folder) {
      var trimmed := TrimSuffix(folder, "/");
      assert Found(trimmed, changed, i) == Found(trimmed, dir, i);
      ReposFromReplaced(trimmed, changed, dir, i, 0);
    }
  }

  /** Two listings that differ at most in entry `i`, where both contribute
      the same, contribute the same from every entry on. */
  lemma {:induction false} ReposFromReplaced(folder: string, a: Node, b: Node, i: nat, j: nat)
    requires a.Directory? && b.Directory? && |a.entries| == |b.entries| && i < |a.entries|
    requires forall k :: 0 <= k < |a.entries| && k != i ==> a.entries[k] == b.entries[k]
    requires Found(folder, a, i) == Found(folder, b, i)
    requires j <= |a.entries|
    ensures ReposFrom(folder, a, j) == ReposFrom(folder, b, j)
    decreases |a.entries| - j
  {
    if j < |a.entries| {
      ReposFromReplaced(folder, a, b, i, j + 1);
      assert Found(folder, a, j) == Found(folder, b, j);
    }
  }

  lemma NoSlash(s: string)
    requires |s| > 0 && s[|s| - 1] != '/'
    ensures TrimSuffix(s, "/") == s
  {
    assert s[|s| - 1..] != "/" by {
      assert s[|s| - 1..][0] == s[|s| - 1];
    }
  }

  /** ScanGitFolders: the recursive walk with its entry loop, threading the
      list of found folders. */
  method ScanGitFolders(folders: seq<string>, folder: string, node: Node) returns (r: Result<seq<string>>)
    ensures r == ScanFolder(folders, folder, node)
    decreases node, 1
  {
    var trimmed := TrimSuffix(folder, "/");
    if trimmed == "" || !node.Directory? {
      return Failure(DirectoryUnreadable);
    }
    var files := node.entries;
    var found := folders;
    for i := 0 to |files|
      invariant ScanEntries(found, trimmed, node, i) == ScanEntries(folders, trimmed, node, 0)
    {
      var file := files[i];
      if !file.node.File? {
        var path := trimmed + "/" + file.name;
        if file.name == ".git" {
          path := TrimSuffix(path, "/.git");
          found := found + [path];
          continue;
        }
        if file.name == "vendor" || file.name == "node_modules" {
          continue;
        }
        var sub := ScanGitFolders(found, path, file.node);
        if sub.Failure? {
          return sub;
        }
        found := sub.value;
      }
    }
    return Success(found);
  }
}
