/**
  The release overlay in plain terms: which paths are the operator's, by name, what a release ships,
  and when a copy succeeds. Nothing here is stated through the copy's own tests.
*/
module OverlayRules {
  import opened Wrappers
  import opened Overlay

  // ---------------------------------------------------------------- the operator's paths

  predicate TopLevel(name: string) {
    || name == ".git" || name == "target" || name == "db" || name == "conf" || name == "certs" || name == "log"
    || name == "logs"
  }

  predicate Ending(e: string) {
    e == "yaml" || e == "yml" || e == "conf" || e == "db" || e == "sqlite" || e == "sqlite3"
  }

  predicate Dotted(name: string, stem: string, ending: string) { name == stem + "." + ending }

  /** A stem that is not empty, a dot, and one of six endings. */
  ghost predicate Config(name: string) {
    exists stem, e :: stem != "" && Ending(e) && Dotted(name, stem, e)
  }

  /** Below a top-level directory of the operator's, or at or below an existing configuration path. */
  ghost predicate OperatorPath(tree: Tree, root: Path, q: Path) {
    && root < q
    && (TopLevel(q[|root|]) || exists i :: |root| <= i < |q| && Exists(tree, q[..i + 1]) && Config(q[i]))
  }

  lemma ExtensionOf(stem: string, ending: string)
    requires stem != "" && forall i :: 0 <= i < |ending| ==> ending[i] != '.'
    ensures Extension(stem + "." + ending) == Some(ending)
  {
    var name := stem + "." + ending;
    assert name[|stem|] == '.';
    forall j | |stem| < j < |name| ensures name[j] != '.' {
      assert name[j] == ending[j - |stem| - 1];
    }
    assert LastDot(name) == |stem|;
    assert name[|stem| + 1..] == ending;
  }

  lemma EndingIff(e: string)
    ensures e in KEPT <==> Ending(e)
    ensures Ending(e) ==> forall i :: 0 <= i < |e| ==> e[i] != '.'
  {
  }

  lemma KeptNameIff(name: string)
    ensures KeptName(name) <==> Config(name)
  {
    hide Ending, KEPT;
    if KeptName(name) {
      var i := LastDot(name);
      EndingIff(name[i + 1..]);
      assert name == name[..i] + "." + name[i + 1..];
      assert Dotted(name, name[..i], name[i + 1..]);
    }
    if Config(name) {
      var stem, e :| stem != "" && Ending(e) && Dotted(name, stem, e);
      EndingIff(e);
      ExtensionOf(stem, e);
    }
  }

  lemma TopLevelIff(name: string)
    ensures name in GUARDED <==> TopLevel(name)
  {
  }

  lemma ProtectedIff(tree: Tree, root: Path, q: Path, i: nat)
    requires root < q && |root| <= i < |q|
    ensures Protected(tree, root, q[..i], q[i]) <==> TopLevel(q[|root|]) || (Exists(tree, q[..i + 1]) && Config(q[i]))
  {
    hide KeptName, Config, GUARDED, TopLevel, Exists;
    KeptNameIff(q[i]);
    TopLevelIff(q[|root|]);
    var dir := q[..i];
    assert dir + [q[i]] == q[..i + 1];
    assert (if |root| < |dir| then dir[|root|] else q[i]) == q[|root|];
  }

  lemma OperatorPathIff(tree: Tree, root: Path, q: Path)
    ensures Owned(tree, root, q) <==> OperatorPath(tree, root, q)
  {
    hide Protected, Config, Exists;
    if root < q {
      forall i | |root| <= i < |q|
        ensures Protected(tree, root, q[..i], q[i])
           <==> TopLevel(q[|root|]) || (Exists(tree, q[..i + 1]) && Config(q[i]))
      {
        ProtectedIff(tree, root, q, i);
      }
      if TopLevel(q[|root|]) {
        ProtectedIff(tree, root, q, |root|);
        hide TopLevel;
      }
    }
  }

  // ---------------------------------------------------------------- what a release ships

  /** The node the release has at `q`, if the release is laid at `dir`. */
  function Shipped(dir: Path, l: Listing, q: Path): Option<Node>
    requires dir < q
    decreases l
  {
    match l
    case End => None
    case More(name, item, rest) =>
      if q[|dir|] != name then Shipped(dir, rest, q)
      else
        match item
        case FileItem(content) => if q == dir + [name] then Some(File(content)) else None
        case DirItem(entries) => if q == dir + [name] then Some(Dir) else Shipped(dir + [name], entries, q)
        case _ => None
  }

  ghost predicate ProtectedFrom(tree: Tree, root: Path, dir: Path, q: Path)
    requires root <= dir < q
  {
    exists i :: |dir| <= i < |q| && Protected(tree, root, q[..i], q[i])
  }

  lemma {:induction false} PlacedIsShipped(tree: Tree, root: Path, dir: Path, l: Listing, q: Path)
    requires root <= dir < q
    ensures Placed(tree, root, dir, l, q)
         == if ProtectedFrom(tree, root, dir, q) then None else Shipped(dir, l, q)
    decreases l
  {
    hide Protected;
    if ProtectedFrom(tree, root, dir, q) {
      var i :| |dir| <= i < |q| && Protected(tree, root, q[..i], q[i]);
      NothingOwnedIsPlaced(tree, root, dir, l, q, i);
    } else if l.More? {
      if q[|dir|] != l.name {
        PlacedIsShipped(tree, root, dir, l.rest, q);
      } else {
        PlacedHere(tree, root, dir, l, q);
        assert q[..|dir|] == dir && !Protected(tree, root, q[..|dir|], q[|dir|]);
        if l.item.DirItem? && q != dir + [l.name] {
          PlacedIsShipped(tree, root, dir + [l.name], l.item.entries, q);
        }
      }
    }
  }

  /** What a release places: what it ships, but for the operator's paths. */
  lemma PlacedIff(tree: Tree, root: Path, l: Listing, q: Path)
    requires root < q
    ensures Placed(tree, root, root, l, q) == if OperatorPath(tree, root, q) then None else Shipped(root, l, q)
  {
    PlacedIsShipped(tree, root, root, l, q);
    OperatorPathIff(tree, root, q);
    hide OperatorPath, Placed, Shipped, Protected;
  }

  // ---------------------------------------------------------------- what a copy does

  /** A shipped file is laid over a link: the link's end takes its content. */
  ghost predicate LinkEndsAt(tree: Tree, root: Path, l: Listing, q: Path) {
    exists p :: root < p && IsLink(tree, p) && tree[p].dest == q
                && Shipped(root, l, p).Some? && Shipped(root, l, p).value.File?
  }

  /** However the copy ends, every path of the operator's is as it was, unless it was absent and a link
      at a shipped file's path ends at it. */
  lemma OperatorPathsSurvive(disk: Disk, root: Path, l: Listing, q: Path)
    requires HasDir(disk.tree, root) && WellNamed(l) && OperatorPath(disk.tree, root, q)
    ensures At(CopyDir(disk, root, root, l).disk.tree, q) == At(disk.tree, q)
            || (q !in disk.tree && LinkEndsAt(disk.tree, root, l, q))
  {
    OperatorPathIff(disk.tree, root, q);
    hide CopyDir, OperatorPath;
    OwnedSurvives(disk, root, l, q);
    if p :| Trap(disk.tree, root, root, l, p) && disk.tree[p].dest == q {
      PlacedIff(disk.tree, root, l, p);
    }
  }

  ghost predicate LinkFree(tree: Tree) { forall q :: !IsLink(tree, q) }

  /** On a tree without links, a successful copy gives every shipped file and directory its shipped
      node, but for the operator's paths, and leaves every other path as it was. */
  lemma OtherPathsAreShipped(disk: Disk, root: Path, l: Listing, q: Path)
    requires HasDir(disk.tree, root) && WellNamed(l) && LinkFree(disk.tree)
    ensures CopyDir(disk, root, root, l).ok ==>
              At(CopyDir(disk, root, root, l).disk.tree, q)
              == if root < q && !OperatorPath(disk.tree, root, q) && Shipped(root, l, q).Some?
                 then Shipped(root, l, q) else At(disk.tree, q)
  {
    if root < q { PlacedIff(disk.tree, root, l, q); }
    hide CopyDir, OperatorPath, Shipped;
    CopyIsExactIff(disk, root, l);
  }

  // ---------------------------------------------------------------- when a copy succeeds

  /** Nothing stands in the way of the entries, judged on the tree before the copy: no link is shipped
      where the copy looks, no directory stands where a file goes and no file where a directory goes. */
  predicate Clear(tree: Tree, root: Path, dir: Path, l: Listing)
    requires root <= dir
    decreases l
  {
    l.More? ==>
      && ClearItem(tree, root, dir, l.name, l.item)
      && Clear(tree, root, dir, l.rest)
  }

  predicate ClearItem(tree: Tree, root: Path, dir: Path, name: string, item: Item)
    requires root <= dir
    decreases item
  {
    && !item.LinkItem?
    && (Protected(tree, root, dir, name)
        || match item
           case FileItem(_) => !HasDir(tree, dir + [name])
           case DirItem(entries) =>
             (dir + [name] in tree ==> tree[dir + [name]] == Dir) && Clear(tree, root, dir + [name], entries)
           case _ => true)
  }

  lemma SafeWithoutLinks(tree: Tree, root: Path, target: Path)
    requires LinkFree(tree)
    ensures DestinationSafe(tree, root, target)
  {
    forall i | |root| < i <= |target| ensures !(Exists(tree, target[..i]) && tree[target[..i]].Link?) {
      assert !IsLink(tree, target[..i]);
    }
  }

  lemma GrowsLinkFree(a: Tree, b: Tree)
    requires LinkFree(a) && Grows(a, b)
    ensures LinkFree(b)
  {
    forall q ensures !IsLink(b, q) {
      assert !IsLink(a, q);
    }
  }

  /** What has been copied elsewhere does not matter. */
  lemma {:induction false} ClearElsewhere(a: Tree, b: Tree, root: Path, dir: Path, l: Listing)
    requires root <= dir && LinkFree(a) && LinkFree(b) && Agree(a, b, dir, Names(l))
    ensures Clear(a, root, dir, l) <==> Clear(b, root, dir, l)
    decreases l
  {
    if l.More? {
      var target := dir + [l.name];
      assert dir < target && target[|dir|] == l.name && At(a, target) == At(b, target);
      SameProtected(a, b, root, dir, l.name);
      hide Protected, LinkFree;
      ClearElsewhere(a, b, root, dir, l.rest);
      if l.item.DirItem? {
        assert Agree(a, b, target, Names(l.item.entries)) by {
          forall q | target < q && q[|target|] in Names(l.item.entries) ensures At(a, q) == At(b, q) {
            assert dir < q && q[|dir|] == l.name;
          }
        }
        ClearElsewhere(a, b, root, target, l.item.entries);
      }
    }
  }

  lemma SameProtected(a: Tree, b: Tree, root: Path, dir: Path, name: string)
    requires root <= dir && LinkFree(a) && LinkFree(b) && At(a, dir + [name]) == At(b, dir + [name])
    ensures Protected(a, root, dir, name) == Protected(b, root, dir, name)
  {
    assert !IsLink(a, dir + [name]) && !IsLink(b, dir + [name]);
  }

  /** An entry changes nothing but what is at or below its own path. */
  lemma EntryStaysBelow(disk: Disk, root: Path, dir: Path, l: Listing, fault: Fault)
    requires root <= dir && HasDir(disk.tree, dir) && l.More? && WellNamed(l) && LinkFree(disk.tree)
    ensures Agree(disk.tree, CopyEntry(disk, root, dir, l.name, l.item, fault).disk.tree, dir, Names(l.rest))
  {
    var one := More(l.name, l.item, End);
    var b := CopyEntry(disk, root, dir, l.name, l.item, fault).disk.tree;
    hide CopyEntry;
    forall q | dir < q && q[|dir|] in Names(l.rest) ensures At(disk.tree, q) == At(b, q) {
      EntryIsAccounted(disk, root, dir, one, fault, q);
      assert Placed(disk.tree, root, dir, one, q) == None;
      NoTraps(disk.tree, root, dir, one);
    }
  }

  lemma NoTraps(tree: Tree, root: Path, dir: Path, l: Listing)
    requires root <= dir && LinkFree(tree)
    ensures forall p :: !Trap(tree, root, dir, l, p)
  {
    forall p ensures !Trap(tree, root, dir, l, p) {
      assert !IsLink(tree, p);
    }
  }

  lemma {:induction false} CopySucceeds(disk: Disk, root: Path, dir: Path, l: Listing)
    requires root <= dir && HasDir(disk.tree, dir) && WellNamed(l) && LinkFree(disk.tree) && disk.faults == []
    ensures CopyDir(disk, root, dir, l).ok <==> Clear(disk.tree, root, dir, l)
    ensures CopyDir(disk, root, dir, l).disk.faults == []
    decreases l
  {
    if l.More? {
      var r := CopyEntry(disk, root, dir, l.name, l.item, Smooth);
      EntrySucceeds(disk, root, dir, l);
      EntryStaysBelow(disk, root, dir, l, Smooth);
      hide CopyEntry, Protected, Agree, LinkFree;
      if r.ok {
        GrowsHasDir(disk.tree, r.disk.tree, dir);
        GrowsLinkFree(disk.tree, r.disk.tree);
        hide Grows;
        CopySucceeds(r.disk, root, dir, l.rest);
        ClearElsewhere(disk.tree, r.disk.tree, root, dir, l.rest);
      }
    }
  }

  lemma {:induction false} EntrySucceeds(disk: Disk, root: Path, dir: Path, l: Listing)
    requires root <= dir && HasDir(disk.tree, dir) && l.More? && WellNamed(l)
    requires LinkFree(disk.tree) && disk.faults == []
    ensures var r := CopyEntry(disk, root, dir, l.name, l.item, Smooth);
            r.disk.faults == [] && (r.ok <==> ClearItem(disk.tree, root, dir, l.name, l.item))
    decreases l.item
  {
    var target := dir + [l.name];
    SafeWithoutLinks(disk.tree, root, target);
    assert !IsLink(disk.tree, target);
    hide Protected, DestinationSafe, LinkFree;
    if && !Protected(disk.tree, root, dir, l.name) && l.item.DirItem?
       && (target in disk.tree ==> disk.tree[target] == Dir) {
      var disk' := disk.(tree := disk.tree[target := Dir]);
      MadeDirGrows(disk.tree, target);
      GrowsLinkFree(disk.tree, disk'.tree);
      CopySucceeds(disk', root, target, l.item.entries);
      assert Agree(disk.tree, disk'.tree, target, Names(l.item.entries));
      ClearElsewhere(disk.tree, disk'.tree, root, target, l.item.entries);
    }
  }

  /** Without faults, on a tree without links, the copy succeeds exactly when nothing stands in its way. */
  lemma CopySucceedsIff(tree: Tree, root: Path, l: Listing)
    requires HasDir(tree, root) && WellNamed(l) && LinkFree(tree)
    ensures CopyDir(Disk(tree, []), root, root, l).ok <==> Clear(tree, root, root, l)
  {
    CopySucceeds(Disk(tree, []), root, root, l);
  }
}
