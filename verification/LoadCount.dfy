/** How many modules a scope is said to have loaded, against how many went in. */
module LoadCount {
  import opened BlockList
  import opened Recovery

  function WentIn(met: seq<Block>): nat {
    if met == [] then 0
    else WentIn(met[..|met| - 1])
         + if met[|met| - 1].Attempt? && met[|met| - 1].fate.GoesIn? then 1 else 0
  }

  lemma {:induction false} WentInBoth(a: seq<Block>, b: seq<Block>)
    ensures WentIn(a + b) == WentIn(a) + WentIn(b)
  {
    if b == [] {
      assert a + b == a;
    } else {
      assert (a + b)[..|a + b| - 1] == a + b[..|b| - 1];
      WentInBoth(a, b[..|b| - 1]);
    }
  }

  lemma MetByCounts(list: string, isOpen: bool, f: File)
    requires f.Module?
    ensures WentIn(MetBy(list, isOpen, f)) == if Settled(list, f).isOpen then 1 else 0
  {
    var closing, tried := if isOpen then [Closing(f.name)] else [], [Attempt(f.name, f.fate)];
    WentInBoth(closing, if Listed(list, f.name) then [] else tried);
    assert closing == [] || closing[..0] == [];
    assert tried[..0] == [];
  }

  lemma FileCounts(list: string, w: Walk, f: File)
    ensures var v := WalkedFile(list, w, f); v.loaded - w.loaded == WentIn(v.met) - WentIn(w.met)
  {
    if f.Module? {
      var i := Slot(w.entries, f.name);
      if i < |w.entries| || i < ENTRIES_MAX {
        var isOpen := i < |w.entries| && w.entries[i].isOpen;
        var met := MetBy(list, isOpen, f);
        MetByCounts(list, isOpen, f);
        WentInBoth(w.met, met);
        assert WalkedFile(list, w, f).met == w.met + met;
      }
    }
  }

  lemma {:induction false} FilesCount(list: string, w: Walk, files: seq<File>)
    ensures var v := WalkedFiles(list, w, files); v.loaded - w.loaded == WentIn(v.met) - WentIn(w.met)
    decreases files
  {
    if files != [] && w.goes {
      FileCounts(list, w, files[0]);
      FilesCount(list, WalkedFile(list, w, files[0]), files[1..]);
    }
  }

  /** What has been counted when each folder is come to. */
  function Before(list: string, w: Walk, scope: Scope): nat
    decreases scope
  {
    if scope == [] || !w.goes then 0
    else (if scope[0].Folder? then w.loaded else 0) + Before(list, WalkedItem(list, w, scope[0]), scope[1..])
  }

  /** Everything counted before a folder is counted again with it. */
  lemma {:induction false} ScopeCounts(list: string, w: Walk, scope: Scope)
    ensures var v := WalkedScope(list, w, scope);
            v.loaded - w.loaded == WentIn(v.met) - WentIn(w.met) + Before(list, w, scope)
    decreases scope
  {
    if scope != [] && w.goes {
      match scope[0] {
        case Loose(f) => FileCounts(list, w, f);
        case Folder(files) => FilesCount(list, w, files);
      }
      ScopeCounts(list, WalkedItem(list, w, scope[0]), scope[1..]);
    }
  }

  /** The count a scope returns is how many of its modules went in exactly where nothing had been loaded before any
      of its folders. */
  lemma CountIsRightExactly(list: string, w: Walk, scope: Scope)
    requires w.loaded == 0
    ensures var v := WalkedScope(list, w, scope);
            v.loaded == WentIn(v.met) - WentIn(w.met) <==> Before(list, w, scope) == 0
  {
    ScopeCounts(list, w, scope);
  }

  /** One loose module and an empty folder after it are counted as two. */
  lemma CountedTwice(name: string, list: string)
    requires !Listed(list, name)
    ensures var v := WalkedScope(list, NONE, [Loose(Module(name, GoesIn)), Folder([])]);
            v.loaded == 2 && v.met == [Attempt(name, GoesIn)]
  {
    var f := Module(name, GoesIn);
    var w := WalkedFile(list, NONE, f);
    assert [] + MetBy(list, false, f) == [Attempt(name, GoesIn)];
    assert [Loose(f), Folder([])][1..] == [Folder([])];
    assert WalkedFiles(list, w, []) == w;
    assert [Folder([])][1..] == [];
  }

  // ---------------------------------------------------- told from the scope alone

  /** A module that is opened and goes in. */
  predicate Loads(list: string, f: File) {
    f.Module? && !Listed(list, f.name) && f.fate.GoesIn?
  }

  function FilesOf(item: Item): seq<File> {
    match item
    case Loose(f) => [f]
    case Folder(files) => files
  }

  predicate SomeLoads(list: string, files: seq<File>) {
    exists i :: 0 <= i < |files| && Loads(list, files[i])
  }

  function Modules(files: seq<File>): nat {
    if files == [] then 0 else (if files[0].Module? then 1 else 0) + Modules(files[1..])
  }

  function ModulesIn(scope: Scope): nat {
    if scope == [] then 0 else Modules(FilesOf(scope[0])) + ModulesIn(scope[1..])
  }

  /** With an entry for each, every file of a listing is come to. */
  lemma {:induction false} FilesGo(list: string, w: Walk, files: seq<File>)
    requires w.goes && |w.entries| + Modules(files) <= ENTRIES_MAX
    ensures var v := WalkedFiles(list, w, files);
            && v.goes && |v.entries| <= |w.entries| + Modules(files)
            && v.loaded >= w.loaded && (v.loaded > w.loaded <==> SomeLoads(list, files))
    decreases files
  {
    if files != [] {
      var next := WalkedFile(list, w, files[0]);
      assert next.loaded == w.loaded + if Loads(list, files[0]) then 1 else 0;
      FilesGo(list, next, files[1..]);
      SomeOfMore(list, files);
    }
  }

  lemma SomeOfMore(list: string, files: seq<File>)
    requires files != []
    ensures SomeLoads(list, files) <==> Loads(list, files[0]) || SomeLoads(list, files[1..])
  {
    if SomeLoads(list, files) && !Loads(list, files[0]) {
      var i :| 0 <= i < |files| && Loads(list, files[i]);
      assert files[1..][i - 1] == files[i];
    } else if SomeLoads(list, files[1..]) {
      var i :| 0 <= i < |files[1..]| && Loads(list, files[1..][i]);
      assert files[i + 1] == files[1..][i];
    }
  }

  lemma ItemGoes(list: string, w: Walk, item: Item)
    requires w.goes && |w.entries| + Modules(FilesOf(item)) <= ENTRIES_MAX
    ensures var v := WalkedItem(list, w, item);
            && v.goes && |v.entries| <= |w.entries| + Modules(FilesOf(item))
            && (v.loaded > 0 <==> w.loaded > 0 || SomeLoads(list, FilesOf(item)))
  {
    FilesGo(list, w, FilesOf(item));
    if item.Loose? {
      assert [item.file][1..] == [];
      assert WalkedFiles(list, w, [item.file]) == WalkedFiles(list, WalkedFile(list, w, item.file), []);
    }
  }

  /** A folder somewhere after something that loads. */
  predicate FolderAfter(list: string, scope: Scope) {
    exists i, j :: 0 <= i < j < |scope| && SomeLoads(list, FilesOf(scope[i])) && scope[j].Folder?
  }

  predicate SomeFolder(scope: Scope) {
    exists j :: 0 <= j < |scope| && scope[j].Folder?
  }

  lemma FolderAfterFirst(list: string, scope: Scope)
    requires scope != []
    ensures SomeFolder(scope) <==> scope[0].Folder? || SomeFolder(scope[1..])
    ensures FolderAfter(list, scope)
            <==> (SomeLoads(list, FilesOf(scope[0])) && SomeFolder(scope[1..])) || FolderAfter(list, scope[1..])
  {
    var rest := scope[1..];
    assert forall k :: 0 < k < |scope| ==> scope[k] == rest[k - 1];
    if FolderAfter(list, scope) {
      var i, j :| 0 <= i < j < |scope| && SomeLoads(list, FilesOf(scope[i])) && scope[j].Folder?;
      assert rest[j - 1].Folder? && (i > 0 ==> rest[i - 1] == scope[i]);
    }
    if j :| 0 <= j < |rest| && rest[j].Folder? { assert scope[j + 1].Folder?; }
    if FolderAfter(list, rest) {
      var i, j :| 0 <= i < j < |rest| && SomeLoads(list, FilesOf(rest[i])) && rest[j].Folder?;
      assert scope[i + 1] == rest[i] && scope[j + 1] == rest[j];
    }
  }

  lemma {:induction false} BeforeFromScope(list: string, w: Walk, scope: Scope)
    requires w.goes && |w.entries| + ModulesIn(scope) <= ENTRIES_MAX
    ensures Before(list, w, scope) > 0 <==> (w.loaded > 0 && SomeFolder(scope)) || FolderAfter(list, scope)
    decreases scope
  {
    if scope != [] {
      ItemGoes(list, w, scope[0]);
      BeforeFromScope(list, WalkedItem(list, w, scope[0]), scope[1..]);
      FolderAfterFirst(list, scope);
    }
  }

  /** With entries enough for the modules of a scope, its count is wrong exactly where a folder comes after a module
      that is not blocked and goes in. */
  lemma CountIsWrongExactly(list: string, w: Walk, scope: Scope)
    requires w.goes && w.loaded == 0 && |w.entries| + ModulesIn(scope) <= ENTRIES_MAX
    ensures var v := WalkedScope(list, w, scope);
            v.loaded != WentIn(v.met) - WentIn(w.met) <==> FolderAfter(list, scope)
  {
    CountIsRightExactly(list, w, scope);
    BeforeFromScope(list, w, scope);
  }
}
