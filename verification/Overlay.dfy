/**
  Installing a release over a source checkout. The release is copied file by file into the
  checkout, past operator-owned files, while any step may fail and leave the copy half done.
*/
module Overlay {
  import opened Wrappers

  /** Absolute, with no symbolic link above the last component. */
  type Path = seq<string>

  /** A link carries the place where following it ends; a link that loops ends at a link. */
  datatype Node = File(content: string) | Dir | Link(dest: Path)

  type Tree = map<Path, Node>

  /** A release directory in the order it is listed. */
  datatype Listing = End | More(name: string, item: Item, rest: Listing)

  datatype Item = FileItem(content: string) | DirItem(entries: Listing) | LinkItem | SpecialItem

  /** What the operating system does to one entry: nothing special, an error before any effect,
      or an error after part of a file was written. */
  datatype Fault = Smooth | Fails | Tears(written: string)

  /** The disk, and the faults still to come. */
  datatype Disk = Disk(tree: Tree, faults: seq<Fault>)

  datatype Outcome = Outcome(disk: Disk, ok: bool)

  function At(tree: Tree, q: Path): Option<Node> { if q in tree then Some(tree[q]) else None }

  predicate HasDir(tree: Tree, q: Path) { At(tree, q) == Some(Dir) }

  predicate IsLink(tree: Tree, q: Path) { q in tree && tree[q].Link? }

  /** Whether a path exists, links followed. */
  predicate Exists(tree: Tree, q: Path) {
    q in tree && (tree[q].Link? ==> tree[q].dest in tree && !tree[tree[q].dest].Link?)
  }

  const GUARDED: set<string> := {".git", "target", "db", "conf", "certs", "log", "logs"}

  const KEPT: set<string> := {"yaml", "yml", "conf", "db", "sqlite", "sqlite3"}

  function LastDot(name: string): (i: int)
    ensures -1 <= i < |name| && (i >= 0 ==> name[i] == '.')
    ensures forall j :: i < j < |name| ==> name[j] != '.'
  {
    if name == "" then -1
    else if name[|name| - 1] == '.' then |name| - 1
    else LastDot(name[..|name| - 1])
  }

  /** The part after the last dot; a leading dot starts no extension. */
  function Extension(name: string): Option<string> {
    var i := LastDot(name);
    if i <= 0 then None else Some(name[i + 1..])
  }

  predicate KeptName(name: string) {
    Extension(name).Some? && Extension(name).value in KEPT
  }

  /** Operator-owned: below a guarded top-level directory, or there already with a kept extension. */
  predicate Protected(tree: Tree, root: Path, dir: Path, name: string)
    requires root <= dir
  {
    || (if |root| < |dir| then dir[|root|] else name) in GUARDED
    || (Exists(tree, dir + [name]) && KeptName(name))
  }

  predicate DestinationSafe(tree: Tree, root: Path, target: Path) {
    forall i :: |root| < i <= |target| ==> !(Exists(tree, target[..i]) && tree[target[..i]].Link?)
  }

  // ---------------------------------------------------------------- the copy

  /** What no step undoes: nodes stay, only files change content, links never appear. */
  ghost predicate Grows(a: Tree, b: Tree) {
    && (forall q :: q in a ==> q in b && (b[q] == a[q] || (a[q].File? && b[q].File?)))
    && (forall q :: q in b && b[q].Link? ==> q in a)
  }

  /** Opening a path for writing follows a link; a missing file is created in an existing directory. */
  function Written(tree: Tree, q: Path, content: string): Option<Tree> {
    if q !in tree then Some(tree[q := File(content)])
    else
      match tree[q]
      case File(_) => Some(tree[q := File(content)])
      case Dir => None
      case Link(d) =>
        if d in tree then (if tree[d].File? then Some(tree[d := File(content)]) else None)
        else if |d| > 0 && HasDir(tree, d[..|d| - 1]) then Some(tree[d := File(content)])
        else None
  }

  function CopyDir(disk: Disk, root: Path, dir: Path, l: Listing): (r: Outcome)
    requires root <= dir && HasDir(disk.tree, dir)
    ensures Grows(disk.tree, r.disk.tree)
    decreases l
  {
    var fault := if disk.faults == [] then Smooth else disk.faults[0];
    var disk := if disk.faults == [] then disk else disk.(faults := disk.faults[1..]);
    match l
    case End => Outcome(disk, fault.Smooth?)
    case More(name, item, rest) =>
      var r := CopyEntry(disk, root, dir, name, item, fault);
      if r.ok then CopyDir(r.disk, root, dir, rest) else r
  }

  function CopyEntry(disk: Disk, root: Path, dir: Path, name: string, item: Item, fault: Fault): (r: Outcome)
    requires root <= dir && HasDir(disk.tree, dir)
    ensures Grows(disk.tree, r.disk.tree)
    decreases item
  {
    var target := dir + [name];
    if item.LinkItem? || fault.Fails? then Outcome(disk, false)
    else if Protected(disk.tree, root, dir, name) then Outcome(disk, true)
    else if !DestinationSafe(disk.tree, root, target) then Outcome(disk, false)
    else
      match item
      case SpecialItem => Outcome(disk, true)
      case FileItem(content) =>
        var tree := Written(disk.tree, target, if fault.Tears? then fault.written else content);
        if tree.None? then Outcome(disk, false) else Outcome(disk.(tree := tree.value), fault.Smooth?)
      case DirItem(entries) =>
        if fault.Tears? || (target in disk.tree && disk.tree[target] != Dir) then Outcome(disk, false)
        else CopyDir(disk.(tree := disk.tree[target := Dir]), root, target, entries)
  }

  // ---------------------------------------------------------------- the release as a function

  /** The node a release puts at `q`, with protection judged on `tree`; None where it puts nothing. */
  function Placed(tree: Tree, root: Path, dir: Path, l: Listing, q: Path): Option<Node>
    requires root <= dir < q
    decreases l
  {
    match l
    case End => None
    case More(name, item, rest) =>
      if q[|dir|] != name then Placed(tree, root, dir, rest, q)
      else if Protected(tree, root, dir, name) then None
      else PlacedItem(tree, root, dir + [name], item, q)
  }

  function PlacedItem(tree: Tree, root: Path, target: Path, item: Item, q: Path): Option<Node>
    requires root <= target <= q
    decreases item
  {
    match item
    case FileItem(content) => if q == target then Some(File(content)) else None
    case DirItem(entries) => if q == target then Some(Dir) else Placed(tree, root, target, entries, q)
    case LinkItem => None
    case SpecialItem => None
  }

  /** A release file path at which the tree has a link. */
  ghost predicate Trap(tree: Tree, root: Path, dir: Path, l: Listing, q: Path)
    requires root <= dir
  {
    dir < q && IsLink(tree, q) && var n := Placed(tree, root, dir, l, q); n.Some? && n.value.File?
  }

  function Names(l: Listing): set<string> {
    match l
    case End => {}
    case More(name, _, rest) => {name} + Names(rest)
  }

  /** A directory lists each name once. */
  predicate WellNamed(l: Listing) {
    l.More? ==> l.name !in Names(l.rest) && WellNamed(l.rest) && (l.item.DirItem? ==> WellNamed(l.item.entries))
  }

  // ---------------------------------------------------------------- whatever happens

  /** Existence and protection are never lost. */
  lemma ProtectionGrows(a: Tree, b: Tree, root: Path, dir: Path, name: string)
    requires Grows(a, b) && root <= dir && Protected(a, root, dir, name)
    ensures Protected(b, root, dir, name)
  {
  }

  /** What a release places on a grown tree, it places on the earlier one. */
  lemma {:induction false} PlacedEarlier(a: Tree, b: Tree, root: Path, dir: Path, l: Listing, q: Path)
    requires Grows(a, b) && root <= dir < q && Placed(b, root, dir, l, q).Some?
    ensures Placed(a, root, dir, l, q) == Placed(b, root, dir, l, q)
    decreases l
  {
    hide Grows, Protected;
    if q[|dir|] != l.name {
      PlacedEarlier(a, b, root, dir, l.rest, q);
    } else {
      if Protected(a, root, dir, l.name) {
        ProtectionGrows(a, b, root, dir, l.name);
        assert false;
      }
      PlacedItemEarlier(a, b, root, dir + [l.name], l.item, q);
    }
  }

  lemma {:induction false} PlacedItemEarlier(a: Tree, b: Tree, root: Path, target: Path, item: Item, q: Path)
    requires Grows(a, b) && root <= target <= q && PlacedItem(b, root, target, item, q).Some?
    ensures PlacedItem(a, root, target, item, q) == PlacedItem(b, root, target, item, q)
    decreases item
  {
    hide Grows;
    if item.DirItem? && q != target { PlacedEarlier(a, b, root, target, item.entries, q); }
  }

  /** The node at `q` after the copy: what it was, or a file where the release places one or where
      a link at such a place ends, or a directory the release places. */
  ghost predicate Accounted(a: Tree, b: Tree, root: Path, dir: Path, l: Listing, q: Path)
    requires root <= dir
  {
    || At(b, q) == At(a, q)
    || (&& dir < q && q in b
        && var n := Placed(a, root, dir, l, q);
           || (n.Some? && n.value.File? && b[q].File? && (q in a ==> a[q].File?))
           || (n.Some? && n.value.Dir? && b[q].Dir? && q !in a))
    || (q !in a && q in b && b[q].File? && exists p :: Trap(a, root, dir, l, p) && a[p].dest == q)
  }

  lemma AccountedEarlier(a: Tree, b: Tree, c: Tree, root: Path, dir: Path, l: Listing, q: Path)
    requires Grows(a, b) && Grows(b, c) && root <= dir && Accounted(b, c, root, dir, l, q) && At(b, q) == At(a, q)
    ensures Accounted(a, c, root, dir, l, q)
  {
    if At(c, q) != At(b, q) {
      if dir < q && Placed(b, root, dir, l, q).Some? {
        PlacedEarlier(a, b, root, dir, l, q);
      }
      if p :| Trap(b, root, dir, l, p) && b[p].dest == q {
        PlacedEarlier(a, b, root, dir, l, p);
        assert Trap(a, root, dir, l, p);
      }
    }
  }

  lemma AccountedLater(a: Tree, b: Tree, c: Tree, root: Path, dir: Path, l: Listing, q: Path)
    requires Grows(a, b) && Grows(b, c) && root <= dir && Accounted(a, b, root, dir, l, q) && At(b, q) != At(a, q)
    ensures Accounted(a, c, root, dir, l, q)
  {
    hide Placed, Trap;
  }

  lemma {:induction false} PlacedNames(tree: Tree, root: Path, dir: Path, l: Listing, q: Path)
    requires root <= dir < q && Placed(tree, root, dir, l, q).Some?
    ensures q[|dir|] in Names(l)
    decreases l
  {
    if q[|dir|] != l.name { PlacedNames(tree, root, dir, l.rest, q); }
  }

  lemma PlacedHere(tree: Tree, root: Path, dir: Path, l: Listing, q: Path)
    requires root <= dir < q && l.More? && q[|dir|] == l.name
    ensures dir + [l.name] <= q
    ensures Placed(tree, root, dir, l, q)
         == if Protected(tree, root, dir, l.name) then None else PlacedItem(tree, root, dir + [l.name], l.item, q)
  {
  }

  lemma AccountedInRest(a: Tree, b: Tree, root: Path, dir: Path, l: Listing, q: Path)
    requires root <= dir && l.More? && WellNamed(l) && Accounted(a, b, root, dir, l.rest, q)
    ensures Accounted(a, b, root, dir, l, q)
  {
    if dir < q && Placed(a, root, dir, l.rest, q).Some? {
      PlacedNames(a, root, dir, l.rest, q);
    }
    if p :| Trap(a, root, dir, l.rest, p) && a[p].dest == q {
      PlacedNames(a, root, dir, l.rest, p);
      assert Trap(a, root, dir, l, p);
    }
  }

  /** The entries of a subdirectory, seen from above. */
  lemma AccountedBelow(a: Tree, b: Tree, root: Path, dir: Path, l: Listing, q: Path)
    requires root <= dir && l.More? && l.item.DirItem? && !Protected(a, root, dir, l.name)
    requires Accounted(a, b, root, dir + [l.name], l.item.entries, q)
    ensures Accounted(a, b, root, dir, l, q)
  {
    hide Protected;
    var target := dir + [l.name];
    forall p | target < p
      ensures dir < p && Placed(a, root, dir, l, p) == Placed(a, root, target, l.item.entries, p)
    {
      assert p[|dir|] == l.name;
    }
    if p :| Trap(a, root, target, l.item.entries, p) && a[p].dest == q {
      assert Trap(a, root, dir, l, p);
    }
  }

  lemma WrittenAccounted(a: Tree, root: Path, dir: Path, l: Listing, content: string, q: Path)
    requires root <= dir && l.More? && l.item.FileItem? && !Protected(a, root, dir, l.name)
    requires DestinationSafe(a, root, dir + [l.name])
    requires Written(a, dir + [l.name], content).Some?
    ensures Accounted(a, Written(a, dir + [l.name], content).value, root, dir, l, q)
  {
    hide Protected;
    var target := dir + [l.name];
    assert target[..|target|] == target;
    assert Placed(a, root, dir, l, target) == Some(File(l.item.content));
    if IsLink(a, target) { assert Trap(a, root, dir, l, target); }
  }

  lemma MadeDirAccounted(a: Tree, b: Tree, root: Path, dir: Path, l: Listing, q: Path)
    requires root <= dir && l.More? && l.item.DirItem? && !Protected(a, root, dir, l.name)
    requires dir + [l.name] in a ==> a[dir + [l.name]] == Dir
    requires var a' := a[dir + [l.name] := Dir];
             Grows(a', b) && Accounted(a', b, root, dir + [l.name], l.item.entries, q)
    ensures Accounted(a, b, root, dir, l, q)
  {
    var target := dir + [l.name];
    var a' := a[target := Dir];
    assert Grows(a, a');
    if q == target {
      assert Placed(a, root, dir, l, target) == Some(Dir);
      assert At(b, q) == Some(Dir);
    } else {
      hide Protected, Placed, Grows;
      AccountedEarlier(a, a', b, root, target, l.item.entries, q);
      AccountedBelow(a, b, root, dir, l, q);
    }
  }

  /** Every outcome, a failed copy included, accounts for every path. */
  lemma {:induction false} CopyIsAccounted(disk: Disk, root: Path, dir: Path, l: Listing, q: Path)
    requires root <= dir && HasDir(disk.tree, dir) && WellNamed(l)
    ensures Accounted(disk.tree, CopyDir(disk, root, dir, l).disk.tree, root, dir, l, q)
    decreases l
  {
    hide Protected, Placed, Accounted, Grows, Written;
    SelfAccounted(disk.tree, root, dir, l, q);
    if l.More? {
      var fault := if disk.faults == [] then Smooth else disk.faults[0];
      var disk' := if disk.faults == [] then disk else disk.(faults := disk.faults[1..]);
      EntryIsAccounted(disk', root, dir, l, fault, q);
      var r := CopyEntry(disk', root, dir, l.name, l.item, fault);
      hide CopyEntry;
      if r.ok {
        GrowsHasDir(disk.tree, r.disk.tree, dir);
        var c := CopyDir(r.disk, root, dir, l.rest).disk.tree;
        CopyIsAccounted(r.disk, root, dir, l.rest, q);
        if At(r.disk.tree, q) == At(disk.tree, q) {
          AccountedEarlier(disk.tree, r.disk.tree, c, root, dir, l.rest, q);
          AccountedInRest(disk.tree, c, root, dir, l, q);
        } else {
          AccountedLater(disk.tree, r.disk.tree, c, root, dir, l, q);
        }
      }
    }
  }

  lemma {:induction false} EntryIsAccounted(disk: Disk, root: Path, dir: Path, l: Listing, fault: Fault, q: Path)
    requires root <= dir && HasDir(disk.tree, dir) && l.More? && WellNamed(l)
    ensures Accounted(disk.tree, CopyEntry(disk, root, dir, l.name, l.item, fault).disk.tree, root, dir, l, q)
    decreases l.item
  {
    hide Protected, Placed, Accounted, Written, DestinationSafe;
    SelfAccounted(disk.tree, root, dir, l, q);
    var target := dir + [l.name];
    if !fault.Fails? && !Protected(disk.tree, root, dir, l.name) && DestinationSafe(disk.tree, root, target) {
      if l.item.FileItem? {
        var content := if fault.Tears? then fault.written else l.item.content;
        if Written(disk.tree, target, content).Some? { WrittenAccounted(disk.tree, root, dir, l, content, q); }
      } else if l.item.DirItem? && !fault.Tears? && (target in disk.tree ==> disk.tree[target] == Dir) {
        var disk' := disk.(tree := disk.tree[target := Dir]);
        CopyIsAccounted(disk', root, target, l.item.entries, q);
        MadeDirAccounted(disk.tree, CopyDir(disk', root, target, l.item.entries).disk.tree, root, dir, l, q);
      }
    }
  }

  lemma SelfAccounted(a: Tree, root: Path, dir: Path, l: Listing, q: Path)
    requires root <= dir
    ensures Accounted(a, a, root, dir, l, q)
  {
  }

  lemma GrowsHasDir(a: Tree, b: Tree, dir: Path)
    requires Grows(a, b) && HasDir(a, dir)
    ensures HasDir(b, dir)
  {
  }

  /** A path below a protected one, or protected itself. */
  ghost predicate Owned(tree: Tree, root: Path, q: Path) {
    root < q && exists i :: |root| <= i < |q| && Protected(tree, root, q[..i], q[i])
  }

  /** The release places nothing at operator-owned paths, and nothing that is not in it. */
  lemma {:induction false} NothingOwnedIsPlaced(tree: Tree, root: Path, dir: Path, l: Listing, q: Path, i: nat)
    requires root <= dir < q && |dir| <= i < |q| && root <= q[..i] && Protected(tree, root, q[..i], q[i])
    ensures Placed(tree, root, dir, l, q).None?
    decreases l
  {
    if l.More? {
      if q[|dir|] != l.name {
        NothingOwnedIsPlaced(tree, root, dir, l.rest, q, i);
      } else if i == |dir| {
        assert q[..i] == dir;
      } else if l.item.DirItem? && q != dir + [l.name] {
        NothingOwnedIsPlaced(tree, root, dir + [l.name], l.item.entries, q, i);
      }
    }
  }

  /** However the copy ends, every operator-owned path, there or not, is as it was, unless it was
      absent and a link at a release file path ends at it. */
  lemma OwnedSurvives(disk: Disk, root: Path, l: Listing, q: Path)
    requires HasDir(disk.tree, root) && WellNamed(l) && Owned(disk.tree, root, q)
    ensures At(CopyDir(disk, root, root, l).disk.tree, q) == At(disk.tree, q)
            || (q !in disk.tree && exists p :: Trap(disk.tree, root, root, l, p) && disk.tree[p].dest == q)
  {
    CopyIsAccounted(disk, root, root, l, q);
    hide Protected;
    var i :| |root| <= i < |q| && Protected(disk.tree, root, q[..i], q[i]);
    NothingOwnedIsPlaced(disk.tree, root, root, l, q, i);
  }

  /** However the copy ends, a node that was there changes only if it is a file that the release
      places, and it is then still a file. */
  lemma OnlyPlacedFilesChange(disk: Disk, root: Path, l: Listing, q: Path)
    requires HasDir(disk.tree, root) && WellNamed(l) && q in disk.tree
    ensures var t := CopyDir(disk, root, root, l).disk.tree;
            && q in t
            && (t[q] == disk.tree[q]
                || (&& root < q && disk.tree[q].File? && t[q].File?
                    && var n := Placed(disk.tree, root, root, l, q); n.Some? && n.value.File?))
  {
    CopyIsAccounted(disk, root, root, l, q);
    hide Placed, CopyDir;
  }

  // ---------------------------------------------------------------- staying inside the root

  ghost predicate OutsideUnchanged(a: Tree, b: Tree, root: Path) {
    forall q :: !(root <= q) ==> At(b, q) == At(a, q)
  }

  /** A release file path holds a link that ends outside the root. */
  ghost predicate Escapes(tree: Tree, root: Path, l: Listing) {
    exists p :: Trap(tree, root, root, l, p) && !(root <= tree[p].dest)
  }

  /** Without such a link nothing outside the root changes, however the copy ends. */
  lemma StaysInside(disk: Disk, root: Path, l: Listing)
    requires HasDir(disk.tree, root) && WellNamed(l) && !Escapes(disk.tree, root, l)
    ensures OutsideUnchanged(disk.tree, CopyDir(disk, root, root, l).disk.tree, root)
  {
    var t := CopyDir(disk, root, root, l).disk.tree;
    hide CopyDir, Placed;
    forall q | !(root <= q) ensures At(t, q) == At(disk.tree, q) {
      CopyIsAccounted(disk, root, root, l, q);
    }
  }

  ghost predicate DirsAbove(tree: Tree, dir: Path, q: Path) {
    forall i :: |dir| <= i < |q| ==> HasDir(tree, q[..i])
  }

  /** A directory that is there and not protected is never protected: only a link that comes alive
      changes what the release places at a link. */
  lemma {:induction false} PlacedStays(a: Tree, b: Tree, root: Path, dir: Path, l: Listing, q: Path)
    requires Grows(a, b) && root <= dir < q && IsLink(a, q) && DirsAbove(a, dir, q) && Placed(a, root, dir, l, q).Some?
    ensures Placed(b, root, dir, l, q) == Placed(a, root, dir, l, q) || (Exists(b, q) && !Exists(a, q))
    decreases l
  {
    hide Grows, KeptName;
    if q[|dir|] != l.name {
      PlacedStays(a, b, root, dir, l.rest, q);
    } else {
      var target := dir + [l.name];
      assert q[..|target|] == target;
      if l.item.DirItem? && q != target {
        assert HasDir(a, q[..|target|]);
        assert !Protected(b, root, dir, l.name);
        PlacedStays(a, b, root, target, l.item.entries, q);
      } else {
        assert q == target;
      }
    }
  }

  lemma TrapIsSprung(a: Tree, root: Path, dir: Path, l: Listing, content: string)
    requires root <= dir && l.More? && l.item.FileItem? && IsLink(a, dir + [l.name])
    requires DestinationSafe(a, root, dir + [l.name]) && Written(a, dir + [l.name], content).Some?
    ensures var d := a[dir + [l.name]].dest; d !in a && d in Written(a, dir + [l.name], content).value
  {
    var target := dir + [l.name];
    assert target[..|target|] == target;
  }

  lemma GrowsKeeps(a: Tree, b: Tree, p: Path, dir: Path)
    requires Grows(a, b) && IsLink(a, p) && DirsAbove(a, dir, p)
    ensures IsLink(b, p) && b[p] == a[p] && DirsAbove(b, dir, p)
    ensures forall d :: d in a ==> d in b
    ensures Exists(b, p) && !Exists(a, p) ==> a[p].dest in b && a[p].dest !in a
  {
  }

  /** A successful copy creates whatever its release's links point to. */
  lemma {:induction false} TrapsAreSprung(disk: Disk, root: Path, dir: Path, l: Listing, p: Path)
    requires root <= dir && HasDir(disk.tree, dir) && WellNamed(l) && CopyDir(disk, root, dir, l).ok
    requires Trap(disk.tree, root, dir, l, p) && DirsAbove(disk.tree, dir, p)
    ensures disk.tree[p].dest !in disk.tree && disk.tree[p].dest in CopyDir(disk, root, dir, l).disk.tree
    decreases l
  {
    hide Protected, Written, Grows, DestinationSafe, Exists, DirsAbove;
    var a := disk.tree;
    var fault := if disk.faults == [] then Smooth else disk.faults[0];
    var disk' := if disk.faults == [] then disk else disk.(faults := disk.faults[1..]);
    var r := CopyEntry(disk', root, dir, l.name, l.item, fault);
    GrowsHasDir(a, r.disk.tree, dir);
    var b, c := r.disk.tree, CopyDir(r.disk, root, dir, l.rest).disk.tree;
    GrowsKeeps(a, b, p, dir);
    GrowsKeeps(b, c, p, dir);
    if p[|dir|] != l.name {
      hide CopyEntry;
      PlacedStays(a, b, root, dir, l.rest, p);
      if Placed(b, root, dir, l.rest, p) == Placed(a, root, dir, l.rest, p) {
        TrapsAreSprung(r.disk, root, dir, l.rest, p);
      }
    } else {
      EntryTrapIsSprung(disk', root, dir, l, fault, p);
    }
  }

  lemma {:induction false} EntryTrapIsSprung(disk: Disk, root: Path, dir: Path, l: Listing, fault: Fault, p: Path)
    requires root <= dir && HasDir(disk.tree, dir) && l.More? && WellNamed(l)
    requires CopyEntry(disk, root, dir, l.name, l.item, fault).ok
    requires Trap(disk.tree, root, dir, l, p) && DirsAbove(disk.tree, dir, p) && p[|dir|] == l.name
    ensures disk.tree[p].dest !in disk.tree
    ensures disk.tree[p].dest in CopyEntry(disk, root, dir, l.name, l.item, fault).disk.tree
    decreases l.item
  {
    hide Protected, Written, Grows, DestinationSafe;
    var target := dir + [l.name];
    PlacedHere(disk.tree, root, dir, l, p);
    if l.item.FileItem? {
      TrapIsSprung(disk.tree, root, dir, l, l.item.content);
    } else {
      assert p[..|target|] == target;
      assert HasDir(disk.tree, p[..|target|]);
      assert disk.tree[target := Dir] == disk.tree;
      TrapsAreSprung(disk, root, target, l.item.entries, p);
    }
  }

  /** Every node's ancestors are directories. */
  ghost predicate Physical(tree: Tree) {
    forall q, i :: q in tree && 0 <= i < |q| ==> HasDir(tree, q[..i])
  }

  /** A successful copy leaves everything outside the root alone exactly when no release file path
      holds a link that ends outside. */
  lemma StaysInsideIff(disk: Disk, root: Path, l: Listing)
    requires HasDir(disk.tree, root) && WellNamed(l) && Physical(disk.tree) && CopyDir(disk, root, root, l).ok
    ensures OutsideUnchanged(disk.tree, CopyDir(disk, root, root, l).disk.tree, root) <==> !Escapes(disk.tree, root, l)
  {
    hide CopyDir;
    if Escapes(disk.tree, root, l) {
      var p :| Trap(disk.tree, root, root, l, p) && !(root <= disk.tree[p].dest);
      TrapsAreSprung(disk, root, root, l, p);
      var d := disk.tree[p].dest;
      assert At(CopyDir(disk, root, root, l).disk.tree, d) != At(disk.tree, d);
    } else {
      StaysInside(disk, root, l);
    }
  }

  ghost predicate OwnedUnchanged(a: Tree, b: Tree, root: Path) {
    forall q :: Owned(a, root, q) ==> At(b, q) == At(a, q)
  }

  /** A release file path holds a link that ends at an operator-owned path. */
  ghost predicate Intrudes(tree: Tree, root: Path, l: Listing) {
    exists p :: Trap(tree, root, root, l, p) && Owned(tree, root, tree[p].dest)
  }

  /** A successful copy leaves every operator-owned path alone exactly when no release file path
      holds a link that ends at one. */
  lemma OwnedUnchangedIff(disk: Disk, root: Path, l: Listing)
    requires HasDir(disk.tree, root) && WellNamed(l) && Physical(disk.tree)
    ensures CopyDir(disk, root, root, l).ok ==>
              (OwnedUnchanged(disk.tree, CopyDir(disk, root, root, l).disk.tree, root)
               <==> !Intrudes(disk.tree, root, l))
  {
    var t := CopyDir(disk, root, root, l).disk.tree;
    hide CopyDir, Placed, Owned, Trap;
    if !CopyDir(disk, root, root, l).ok { return; }
    if Intrudes(disk.tree, root, l) {
      var p :| Trap(disk.tree, root, root, l, p) && Owned(disk.tree, root, disk.tree[p].dest);
      TrapIsPhysical(disk.tree, root, l, p);
      TrapsAreSprung(disk, root, root, l, p);
      assert At(t, disk.tree[p].dest) != At(disk.tree, disk.tree[p].dest);
    } else {
      forall q | Owned(disk.tree, root, q) ensures At(t, q) == At(disk.tree, q) {
        OwnedSurvives(disk, root, l, q);
      }
    }
  }

  lemma TrapIsPhysical(tree: Tree, root: Path, l: Listing, p: Path)
    requires Physical(tree) && Trap(tree, root, root, l, p)
    ensures DirsAbove(tree, root, p)
  {
  }

  /** One file, copied over a dangling link to a missing file in an existing directory. */
  lemma CopyThroughLink(tree: Tree, root: Path, d: Path)
    requires HasDir(tree, root) && At(tree, root + ["a"]) == Some(Link(d))
    requires |d| > 0 && d !in tree && HasDir(tree, d[..|d| - 1])
    ensures var r := CopyDir(Disk(tree, []), root, root, More("a", FileItem("release"), End));
            r.ok && r.disk.tree == tree[d := File("release")]
  {
    var target, disk := root + ["a"], Disk(tree, []);
    assert "a" !in GUARDED;
    assert target[..|target|] == target;
    hide KeptName;
    assert !Protected(tree, root, root, "a") && DestinationSafe(tree, root, target);
    hide Protected, DestinationSafe, GUARDED, Grows;
    assert Written(tree, target, "release") == Some(tree[d := File("release")]);
    hide Written;
    var r := CopyEntry(disk, root, root, "a", FileItem("release"), Smooth);
    assert r == Outcome(Disk(tree[d := File("release")], []), true);
    hide CopyEntry;
    assert HasDir(r.disk.tree, root);
  }

  /** `a` in the checkout is a dangling link to a file outside it: the copy creates that file. */
  lemma DanglingLinkEscapes()
    ensures var tree: Tree := map[[] := Dir, ["root"] := Dir, ["root", "a"] := Link(["secret"])];
            var l := More("a", FileItem("release"), End);
            var r := CopyDir(Disk(tree, []), ["root"], ["root"], l);
            && Physical(tree) && WellNamed(l) && r.ok
            && ["secret"] !in tree && At(r.disk.tree, ["secret"]) == Some(File("release"))
  {
    var tree: Tree := map[[] := Dir, ["root"] := Dir, ["root", "a"] := Link(["secret"])];
    assert ["root"] + ["a"] == ["root", "a"] && ["secret"][..0] == [];
    CopyThroughLink(tree, ["root"], ["secret"]);
  }

  /** `a` in the checkout is a dangling link into the protected `conf`: the copy creates a file there,
      although nothing outside the root changes. */
  lemma DanglingLinkIntrudes()
    ensures var tree: Tree := map[[] := Dir, ["root"] := Dir, ["root", "conf"] := Dir,
                                  ["root", "a"] := Link(["root", "conf", "x"])];
            var l, q := More("a", FileItem("release"), End), ["root", "conf", "x"];
            var r := CopyDir(Disk(tree, []), ["root"], ["root"], l);
            && Physical(tree) && WellNamed(l) && r.ok && OutsideUnchanged(tree, r.disk.tree, ["root"])
            && Owned(tree, ["root"], q) && q !in tree && At(r.disk.tree, q) == Some(File("release"))
  {
    var tree: Tree := map[[] := Dir, ["root"] := Dir, ["root", "conf"] := Dir,
                          ["root", "a"] := Link(["root", "conf", "x"])];
    var q: Path := ["root", "conf", "x"];
    assert ["root"] + ["a"] == ["root", "a"] && q[..2] == ["root", "conf"];
    assert Physical(tree) by {
      assert ["root"][..0] == [] && ["root", "conf"][..0] == [] && ["root", "a"][..0] == [];
      assert ["root", "conf"][..1] == ["root"] && ["root", "a"][..1] == ["root"];
    }
    CopyThroughLink(tree, ["root"], q);
    hide CopyDir, KeptName;
    assert Owned(tree, ["root"], q) by {
      assert q[..1] == ["root"] && q[1] == "conf";
      assert Protected(tree, ["root"], q[..1], q[1]);
    }
    assert ["root"] <= q;
  }

  // ---------------------------------------------------------------- the exact result

  /** What the release leaves at `q`, every existence test made on the tree before the copy. */
  function Expected(tree: Tree, root: Path, dir: Path, l: Listing, q: Path): Option<Node>
    requires root <= dir
  {
    if dir < q && Placed(tree, root, dir, l, q).Some? then Placed(tree, root, dir, l, q) else At(tree, q)
  }

  /** No path the release places holds a link. */
  ghost predicate NoLinks(tree: Tree, root: Path, dir: Path, l: Listing)
    requires root <= dir
  {
    forall q :: dir < q && Placed(tree, root, dir, l, q).Some? ==> !IsLink(tree, q)
  }

  ghost predicate Agree(a: Tree, b: Tree, dir: Path, names: set<string>) {
    forall q :: dir < q && q[|dir|] in names ==> At(a, q) == At(b, q)
  }

  lemma NoLinksBelow(a: Tree, root: Path, dir: Path, l: Listing)
    requires root <= dir && l.More? && WellNamed(l) && NoLinks(a, root, dir, l)
    ensures NoLinks(a, root, dir, l.rest)
    ensures l.item.DirItem? && !Protected(a, root, dir, l.name) ==> NoLinks(a, root, dir + [l.name], l.item.entries)
  {
    hide Protected;
    forall q | dir < q && Placed(a, root, dir, l.rest, q).Some? ensures !IsLink(a, q) {
      PlacedNames(a, root, dir, l.rest, q);
      assert Placed(a, root, dir, l, q).Some?;
    }
    if l.item.DirItem? && !Protected(a, root, dir, l.name) {
      forall q | dir + [l.name] < q && Placed(a, root, dir + [l.name], l.item.entries, q).Some? ensures !IsLink(a, q) {
        assert q[|dir|] == l.name;
        assert Placed(a, root, dir, l, q).Some?;
      }
    }
  }

  lemma NoLinksLater(a: Tree, b: Tree, root: Path, dir: Path, l: Listing)
    requires Grows(a, b) && root <= dir && NoLinks(a, root, dir, l)
    ensures NoLinks(b, root, dir, l)
  {
    forall q | dir < q && Placed(b, root, dir, l, q).Some? ensures !IsLink(b, q) {
      PlacedEarlier(a, b, root, dir, l, q);
    }
  }

  /** Protection judged later is protection judged earlier, where the copy has not been yet. */
  lemma {:induction false} PlacedLater(a: Tree, b: Tree, root: Path, dir: Path, l: Listing, q: Path)
    requires Grows(a, b) && root <= dir < q && WellNamed(l) && NoLinks(a, root, dir, l) && Agree(a, b, dir, Names(l))
    ensures Placed(b, root, dir, l, q) == Placed(a, root, dir, l, q)
    decreases l
  {
    if l.More? {
      NoLinksBelow(a, root, dir, l);
      hide Grows, KeptName, NoLinks;
      var target := dir + [l.name];
      if q[|dir|] != l.name {
        PlacedLater(a, b, root, dir, l.rest, q);
      } else if Protected(a, root, dir, l.name) {
        ProtectionGrows(a, b, root, dir, l.name);
      } else {
        if l.item.FileItem? || l.item.DirItem? { SameProtection(a, b, root, dir, l); }
        if l.item.DirItem? && q != target {
          PlacedLater(a, b, root, target, l.item.entries, q);
        }
      }
    }
  }

  lemma SameProtection(a: Tree, b: Tree, root: Path, dir: Path, l: Listing)
    requires root <= dir && l.More? && (l.item.FileItem? || l.item.DirItem?)
    requires NoLinks(a, root, dir, l) && Agree(a, b, dir, Names(l)) && !Protected(a, root, dir, l.name)
    ensures !Protected(b, root, dir, l.name)
  {
    hide KeptName;
    var target := dir + [l.name];
    assert dir < target && target[|dir|] == l.name;
    assert Placed(a, root, dir, l, target).Some?;
    assert At(a, target) == At(b, target);
  }

  /** What one entry leaves behind. */
  ghost predicate EntryInstalled(a: Tree, b: Tree, root: Path, dir: Path, l: Listing, q: Path)
    requires root <= dir && l.More?
  {
    At(b, q) == if dir < q && q[|dir|] == l.name then Expected(a, root, dir, l, q) else At(a, q)
  }

  lemma {:induction false} CopyInstalls(disk: Disk, root: Path, dir: Path, l: Listing)
    requires root <= dir && HasDir(disk.tree, dir) && WellNamed(l) && CopyDir(disk, root, dir, l).ok
    requires NoLinks(disk.tree, root, dir, l)
    ensures forall q :: At(CopyDir(disk, root, dir, l).disk.tree, q) == Expected(disk.tree, root, dir, l, q)
    decreases l
  {
    if l.More? {
      var a := disk.tree;
      var fault := if disk.faults == [] then Smooth else disk.faults[0];
      var disk' := if disk.faults == [] then disk else disk.(faults := disk.faults[1..]);
      var r := CopyEntry(disk', root, dir, l.name, l.item, fault);
      var b, c := r.disk.tree, CopyDir(r.disk, root, dir, l.rest).disk.tree;
      hide CopyEntry, Protected, Grows, NoLinks;
      EntryInstalls(disk', root, dir, l, fault);
      NoLinksBelow(a, root, dir, l);
      NoLinksLater(a, b, root, dir, l.rest);
      GrowsHasDir(a, b, dir);
      CopyInstalls(r.disk, root, dir, l.rest);
      RestInstalled(a, b, c, root, dir, l);
    }
  }

  lemma RestInstalled(a: Tree, b: Tree, c: Tree, root: Path, dir: Path, l: Listing)
    requires root <= dir && l.More? && WellNamed(l) && Grows(a, b) && NoLinks(a, root, dir, l.rest)
    requires forall q :: EntryInstalled(a, b, root, dir, l, q)
    requires forall q :: At(c, q) == Expected(b, root, dir, l.rest, q)
    ensures forall q :: At(c, q) == Expected(a, root, dir, l, q)
  {
    hide Grows, NoLinks, Protected;
    forall q | dir < q && q[|dir|] in Names(l.rest) ensures At(a, q) == At(b, q) {
      assert EntryInstalled(a, b, root, dir, l, q);
    }
    forall q ensures At(c, q) == Expected(a, root, dir, l, q) {
      assert EntryInstalled(a, b, root, dir, l, q);
      if dir < q {
        if q[|dir|] == l.name {
          if Placed(b, root, dir, l.rest, q).Some? { PlacedNames(b, root, dir, l.rest, q); }
        } else {
          PlacedLater(a, b, root, dir, l.rest, q);
        }
      }
    }
  }

  lemma {:induction false} EntryInstalls(disk: Disk, root: Path, dir: Path, l: Listing, fault: Fault)
    requires root <= dir && HasDir(disk.tree, dir) && l.More? && WellNamed(l) && NoLinks(disk.tree, root, dir, l)
    requires CopyEntry(disk, root, dir, l.name, l.item, fault).ok
    ensures var b := CopyEntry(disk, root, dir, l.name, l.item, fault).disk.tree;
            forall q :: EntryInstalled(disk.tree, b, root, dir, l, q)
    decreases l.item
  {
    hide Protected, NoLinks, Grows, DestinationSafe;
    var a, target := disk.tree, dir + [l.name];
    forall q | dir < q && q[|dir|] == l.name
      ensures target <= q
      ensures Placed(a, root, dir, l, q)
           == if Protected(a, root, dir, l.name) then None else PlacedItem(a, root, target, l.item, q)
    {
      PlacedHere(a, root, dir, l, q);
    }
    if !Protected(a, root, dir, l.name) {
      if l.item.FileItem? {
        assert !IsLink(a, target) by {
          assert Placed(a, root, dir, l, target).Some?;
          NoLinksAt(a, root, dir, l, target);
        }
      } else if l.item.DirItem? {
        var disk' := disk.(tree := a[target := Dir]);
        var b := CopyDir(disk', root, target, l.item.entries).disk.tree;
        NoLinksBelow(a, root, dir, l);
        MadeDirGrows(a, target);
        NoLinksLater(a, disk'.tree, root, target, l.item.entries);
        CopyInstalls(disk', root, target, l.item.entries);
        SubdirInstalled(a, b, root, dir, l);
      }
    }
  }

  lemma NoLinksAt(a: Tree, root: Path, dir: Path, l: Listing, q: Path)
    requires root <= dir < q && NoLinks(a, root, dir, l) && Placed(a, root, dir, l, q).Some?
    ensures !IsLink(a, q)
  {
  }

  lemma MadeDirGrows(a: Tree, target: Path)
    requires target in a ==> a[target] == Dir
    ensures Grows(a, a[target := Dir])
  {
  }

  lemma SubdirInstalled(a: Tree, b: Tree, root: Path, dir: Path, l: Listing)
    requires root <= dir && l.More? && l.item.DirItem? && WellNamed(l) && !Protected(a, root, dir, l.name)
    requires NoLinks(a, root, dir + [l.name], l.item.entries) && Grows(a, a[dir + [l.name] := Dir])
    requires forall q :: At(b, q) == Expected(a[dir + [l.name] := Dir], root, dir + [l.name], l.item.entries, q)
    ensures forall q :: EntryInstalled(a, b, root, dir, l, q)
  {
    hide Protected, NoLinks, Grows;
    var target := dir + [l.name];
    forall q ensures EntryInstalled(a, b, root, dir, l, q) {
      if dir < q && q[|dir|] == l.name { PlacedHere(a, root, dir, l, q); }
      if target < q {
        PlacedLater(a, a[target := Dir], root, target, l.item.entries, q);
      } else if dir < q && q[|dir|] == l.name {
        assert q == target;
      }
    }
  }

  lemma {:induction false} LinksAreNotPlaced(tree: Tree, root: Path, dir: Path, l: Listing, q: Path)
    requires root <= dir < q && Placed(tree, root, dir, l, q).Some?
    ensures !Placed(tree, root, dir, l, q).value.Link?
    decreases l
  {
    if q[|dir|] != l.name {
      LinksAreNotPlaced(tree, root, dir, l.rest, q);
    } else if l.item.DirItem? && q != dir + [l.name] {
      LinksAreNotPlaced(tree, root, dir + [l.name], l.item.entries, q);
    }
  }

  /** A successful copy installs every unprotected release file and directory, and touches nothing
      else, exactly when no path it places held a link. */
  lemma CopyIsExactIff(disk: Disk, root: Path, l: Listing)
    requires HasDir(disk.tree, root) && WellNamed(l)
    ensures CopyDir(disk, root, root, l).ok ==>
              ((forall q :: At(CopyDir(disk, root, root, l).disk.tree, q) == Expected(disk.tree, root, root, l, q))
               <==> NoLinks(disk.tree, root, root, l))
  {
    var a, b := disk.tree, CopyDir(disk, root, root, l).disk.tree;
    if !CopyDir(disk, root, root, l).ok { return; }
    if NoLinks(a, root, root, l) {
      CopyInstalls(disk, root, root, l);
    } else {
      var q :| root < q && Placed(a, root, root, l, q).Some? && IsLink(a, q);
      LinksAreNotPlaced(a, root, root, l, q);
      assert At(b, q) == At(a, q) != Expected(a, root, root, l, q);
    }
  }

  // ---------------------------------------------------------------- the program

  function Size(l: Listing): nat {
    match l
    case End => 0
    case More(_, item, rest) => 1 + (if item.DirItem? then Size(item.entries) else 0) + Size(rest)
  }

  class SourceRoot {
    const root: Path
    var tree: Tree
    var faults: seq<Fault>

    function State(): Disk
      reads this
    {
      Disk(tree, faults)
    }

    constructor (root: Path, tree: Tree, faults: seq<Fault>)
      ensures this.root == root && State() == Disk(tree, faults)
    {
      this.root := root;
      this.tree := tree;
      this.faults := faults;
    }

    method EnsureDestinationSafe(target: Path) returns (safe: bool)
      requires root <= target
      ensures safe == DestinationSafe(tree, root, target)
    {
      var i := |root|;
      while i < |target|
        invariant |root| <= i <= |target|
        invariant forall j :: |root| < j <= i ==> !(Exists(tree, target[..j]) && tree[target[..j]].Link?)
      {
        i := i + 1;
        if Exists(tree, target[..i]) && tree[target[..i]].Link? {
          return false;
        }
      }
      return true;
    }

    method NextFault() returns (fault: Fault)
      modifies this
      ensures old(faults) == [] ==> fault == Smooth && State() == old(State())
      ensures old(faults) != [] ==> fault == old(faults)[0] && State() == old(State()).(faults := old(faults)[1..])
    {
      fault := Smooth;
      if faults != [] {
        fault := faults[0];
        faults := faults[1..];
      }
    }

    method CopyDirectory(dir: Path, l: Listing) returns (ok: bool)
      requires root <= dir && HasDir(tree, dir)
      modifies this
      ensures Outcome(State(), ok) == CopyDir(old(State()), root, dir, l)
      decreases Size(l), 0
    {
      var rest := l;
      while true
        invariant HasDir(tree, dir) && Size(rest) <= Size(l)
        invariant CopyDir(State(), root, dir, rest) == CopyDir(old(State()), root, dir, l)
        decreases rest
      {
        ghost var before := State();
        var fault := NextFault();
        if rest.End? {
          return fault.Smooth?;
        }
        ghost var drawn := State();
        var name, item := rest.name, rest.item;
        ok := CopyOne(dir, name, item, fault);
        assert CopyDir(before, root, dir, rest)
            == if ok then CopyDir(State(), root, dir, rest.rest) else Outcome(State(), false);
        if !ok {
          return;
        }
        rest := rest.rest;
      }
    }

    method CopyOne(dir: Path, name: string, item: Item, fault: Fault) returns (ok: bool)
      requires root <= dir && HasDir(tree, dir)
      modifies this
      ensures Outcome(State(), ok) == CopyEntry(old(State()), root, dir, name, item, fault)
      ensures HasDir(tree, dir)
      decreases if item.DirItem? then Size(item.entries) else 0, 1
    {
      if item.LinkItem? || fault.Fails? {
        return false;
      }
      if Protected(tree, root, dir, name) {
        return true;
      }
      var target := dir + [name];
      var safe := EnsureDestinationSafe(target);
      if !safe {
        return false;
      }
      if item.DirItem? {
        if fault.Tears? || (target in tree && tree[target] != Dir) {
          return false;
        }
        tree := tree[target := Dir];
        ok := CopyDirectory(target, item.entries);
      } else if item.FileItem? {
        var written := Written(tree, target, if fault.Tears? then fault.written else item.content);
        if written.None? {
          return false;
        }
        tree := written.value;
        ok := fault.Smooth?;
      } else {
        ok := true;
      }
    }
  }
}
