/** What holds after every run of the file system from the exported root. */
module RunLaws {
  import opened CText
  import opened Decimal
  import opened CloudStructures
  import opened Attributes
  import opened AttributeLaws
  import opened PathTokenizer
  import opened Namespace
  import opened Listing
  import opened Connector
  import opened FileSystem
  import opened ListAccumulator
  import opened Runs
  import BatchLaws

  ghost function After(now: Time, ops: seq<Op>): World {
    Run(Start(now), ops)
  }

  ghost predicate Possible(now: Time, ops: seq<Op>) {
    AllowedRun(Start(now), ops)
  }

  // ----- the namespace -----

  /** `k` was formed from the key of a stored directory by one of the two operations. */
  ghost predicate IsChildKey(b: Bucket, k: string) {
    exists d, name ::
      d in b && IsDirOid(d) && ValidName(name) && (k == ChildDirKey(d, name) || k == ChildFileKey(d, name))
  }

  /** Every key but the root's is a child of a stored directory, every live handle has its object, and
      every object has exactly the 13 metadata entries, all of which can be read. */
  lemma NamespaceInvariant(now: Time, ops: seq<Op>)
    requires Possible(now, ops)
    ensures ROOTOID in After(now, ops).bucket
    ensures forall k :: k in After(now, ops).bucket && k != ROOTOID ==> IsChildKey(After(now, ops).bucket, k)
    ensures After(now, ops).live <= After(now, ops).bucket.Keys
    ensures StoreOk(After(now, ops).bucket)
    ensures forall k :: k in After(now, ops).bucket ==> Readable(After(now, ops).bucket[k].meta)
  {
    var w, t := After(now, ops), TreeRun(StartTree(now), ops);
    Simulation(now, ops);
    hide KeyOf, NodeOf, Decode, Readable, Run, TreeRun, Start;
    RootStored(w, t);
    forall k | k in w.bucket
      ensures Readable(w.bucket[k].meta)
      ensures k != ROOTOID ==> IsChildKey(w.bucket, k)
    {
      KeyLeadsBack(w, t, k);
      StoredNode(w, t, NodeOf(k));
      if k != ROOTOID {
        ChildOfParent(w, t, NodeOf(k));
      }
    }
    StoreReadable(w.bucket);
  }

  lemma StoreReadable(b: Bucket)
    requires forall k :: k in b ==> Readable(b[k].meta)
    ensures StoreOk(b)
  {
  }

  lemma RootStored(w: World, t: Tree)
    requires Refines(w, t)
    ensures ROOTOID in w.bucket && KeyOf(ROOT) == ROOTOID
  {
    hide Decode, Readable;
    StoredNode(w, t, ROOT);
    assert KeyOf(ROOT) == ROOTOID;
  }

  lemma ChildOfParent(w: World, t: Tree, n: Node)
    requires Refines(w, t) && n in t && KeyOf(n) != ROOTOID
    ensures IsChildKey(w.bucket, KeyOf(n))
  {
    hide Decode, Readable, Refines, KeyOf, DirKey, ValidName;
    RootStored(w, t);
    StoredNode(w, t, n);
    var parent := n.Parent();
    assert parent in t;
    StoredNode(w, t, parent);
    LastOfKey(parent);
    DirKeyOf(parent.path);
    var d := KeyOf(parent);
    assert d in w.bucket && IsDirOid(d);
    if n.Dir? {
      var name := n.path[|n.path| - 1];
      assert n.path == parent.path + [name];
      ChildKeys(parent.path, name);
      assert IsChildKey(w.bucket, KeyOf(n));
    } else {
      ChildKeys(parent.path, n.name);
      assert IsChildKey(w.bucket, KeyOf(n));
    }
  }

  /** No operation removes a key, and no handle is taken back. */
  lemma {:induction false} NothingDisappears(w: World, before: seq<Op>, after: seq<Op>)
    ensures Run(w, before).bucket.Keys <= Run(w, before + after).bucket.Keys
    ensures Run(w, before).live <= Run(w, before + after).live
  {
    hide NewObject, Refill;
    if after == [] {
      assert before + after == before;
    } else {
      var ops := before + after;
      NothingDisappears(w, before, after[..|after| - 1]);
      assert ops[..|ops| - 1] == before + after[..|after| - 1];
    }
  }

  // ----- types -----

  /** Types are passed the way the operations are meant: directories stay directories and files are
      created and kept as regular files. */
  predicate TypesMeant(op: Op) {
    match op
    case Makedir(_, _, attrs, _) => TypeBit in attrs.mask ==> attrs.objectType == Directory
    case Create(_, _, attrs, _) => TypeBit in attrs.mask && attrs.objectType == RegularFile
    case Lookup(_, _) => true
    case SetAttrs(oid, attrs) =>
      TypeBit in attrs.mask ==> attrs.objectType == if IsDirOid(oid) then Directory else RegularFile
  }

  ghost predicate TypesByPlace(t: Tree) {
    forall n :: n in t ==> t[n].objectType == if n.Dir? then Directory else RegularFile
  }

  lemma {:induction false} TreeTypes(now: Time, ops: seq<Op>)
    requires Possible(now, ops)
    requires forall i :: 0 <= i < |ops| ==> TypesMeant(ops[i])
    ensures TypesByPlace(TreeRun(StartTree(now), ops))
  {
    if ops != [] {
      var init, op := ops[..|ops| - 1], ops[|ops| - 1];
      TreeTypes(now, init);
      Simulation(now, init);
      var w, t := After(now, init), TreeRun(StartTree(now), init);
      assert Allowed(w, op) && TypesMeant(op);
      hide Refines, Run, AllowedRun, TreeRun, Start, StartTree, KeyOf, NodeOf, NewObject, Refill;
      LiveIsStored(w, t);
      if op.SetAttrs? {
        KeyLeadsBack(w, t, op.oid);
      }
      assert TypesByPlace(TreeNext(t, op));
    }
  }

  /** With types passed as meant, the stored type is DIRECTORY exactly for the keys that end in '/'. */
  lemma TypeMatchesKey(now: Time, ops: seq<Op>, k: string)
    requires Possible(now, ops) && k in After(now, ops).bucket
    requires forall i :: 0 <= i < |ops| ==> TypesMeant(ops[i])
    ensures Decode(After(now, ops).bucket[k].meta, ZERO_ATTRS).objectType
      == if IsDirOid(k) then Directory else RegularFile
  {
    var w, t := After(now, ops), TreeRun(StartTree(now), ops);
    Simulation(now, ops);
    TreeTypes(now, ops);
    hide KeyOf, NodeOf, Decode, Readable, Run, TreeRun, Start;
    KeyLeadsBack(w, t, k);
    StoredNode(w, t, NodeOf(k));
  }

  /** cloud_create starts from directory defaults: the new object is a regular file exactly when the
      caller asks for it with ATTR_TYPE in the mask. */
  lemma CreatedType(now: Time, ops: seq<Op>, parent: string, name: string, attrs: AttrList, created: Time)
    requires Possible(now, ops) && Allowed(After(now, ops), Create(parent, name, attrs, created))
    ensures Decode(NewObject(ChildFileKey(parent, name), attrs, created).meta, ZERO_ATTRS).objectType == RegularFile
      <==> (TypeBit in attrs.mask && attrs.objectType == RegularFile)
  {
    var w, t := After(now, ops), TreeRun(StartTree(now), ops);
    Simulation(now, ops);
    hide KeyOf, NodeOf, Decode, Readable, Run, TreeRun, Start, NewObject, Refines, Defaults, Refill;
    LiveIsStored(w, t);
    ChildIsNew(w, t, parent, name);
    NewObjectReadable(File(PathOf(parent), name), attrs, created);
  }

  // ----- attributes -----

  /** The attribute lists of the setattrs calls on one object. */
  function SetsOn(ops: seq<Op>, oid: string): seq<AttrList> {
    if ops == [] then []
    else
      var init, op := ops[..|ops| - 1], ops[|ops| - 1];
      SetsOn(init, oid) + if op.SetAttrs? && op.oid == oid then [op.attrs] else []
  }

  function OverlayAll(base: AttrList, sets: seq<AttrList>): AttrList {
    if sets == [] then base else Overlay(OverlayAll(base, sets[..|sets| - 1]), sets[|sets| - 1])
  }

  /** The operation stores a new object under this key. */
  predicate Replaces(op: Op, oid: string) {
    (op.Makedir? && ChildDirKey(op.parent, op.name) == oid) || (op.Create? && ChildFileKey(op.parent, op.name) == oid)
  }

  ghost function AttrsOf(w: World, oid: string): AttrList
    requires oid in w.bucket
  {
    Decode(w.bucket[oid].meta, ZERO_ATTRS)
  }

  /** From any point of a run on, and as long as the object is not created anew, its attributes are
      what they were under the setattrs calls made on it: no other operation touches them. */
  lemma {:induction false} AttributesKept(now: Time, before: seq<Op>, after: seq<Op>, oid: string)
    requires Possible(now, before + after) && oid in After(now, before).bucket
    requires forall i :: 0 <= i < |after| ==> !Replaces(after[i], oid)
    ensures oid in After(now, before + after).bucket
    ensures AttrsOf(After(now, before + after), oid) == OverlayAll(AttrsOf(After(now, before), oid), SetsOn(after, oid))
    ensures After(now, before + after).bucket[oid].data == After(now, before).bucket[oid].data
  {
    hide Overlay, Decode, Refill, NewObject, Readable, KeyOf, NodeOf;
    if after == [] {
      assert before + after == before;
    } else {
      var ops, init, op := before + after, after[..|after| - 1], after[|after| - 1];
      assert ops[..|ops| - 1] == before + init && ops[|ops| - 1] == op;
      AttributesKept(now, before, init, oid);
      var w := After(now, before + init);
      assert After(now, ops) == Next(w, op) && Allowed(w, op) && !Replaces(op, oid);
      NamespaceInvariant(now, before + init);
      AttributesStep(w, op, oid);
      if op.SetAttrs? && op.oid == oid {
        assert SetsOn(after, oid) == SetsOn(init, oid) + [op.attrs];
        OverlayAllSnoc(AttrsOf(After(now, before), oid), SetsOn(init, oid), op.attrs);
      } else {
        assert SetsOn(after, oid) == SetsOn(init, oid);
      }
    }
  }

  lemma AttributesStep(w: World, op: Op, oid: string)
    requires Allowed(w, op) && !Replaces(op, oid)
    requires oid in w.bucket && Readable(w.bucket[oid].meta)
    ensures oid in Next(w, op).bucket && Next(w, op).bucket[oid].data == w.bucket[oid].data
    ensures AttrsOf(Next(w, op), oid) ==
      if op.SetAttrs? && op.oid == oid then Overlay(AttrsOf(w, oid), op.attrs) else AttrsOf(w, oid)
  {
    hide Overlay, Decode, Refill, NewObject, Readable;
    if op.SetAttrs? && op.oid == oid {
      RefillReadable(op.attrs, w.bucket[oid].meta);
    }
  }

  lemma OverlayAllSnoc(base: AttrList, sets: seq<AttrList>, a: AttrList)
    ensures OverlayAll(base, sets + [a]) == Overlay(OverlayAll(base, sets), a)
  {
  }

  /** What a lookup finds after creating a file and whatever comes later, short of creating it anew:
      the object, still empty, with the attributes of its creation under the setattrs calls on it.
      A directory of the same name, and every other object, makes no difference. */
  lemma CreateThenLookup(now: Time, before: seq<Op>, op: Op, after: seq<Op>)
    requires op.Create? && Possible(now, before + [op] + after)
    requires forall i :: 0 <= i < |after| ==> !Replaces(after[i], ChildFileKey(op.parent, op.name))
    ensures var oid := ChildFileKey(op.parent, op.name);
      var w := After(now, before + [op] + after);
      && oid in w.bucket && oid in w.live && w.bucket[oid].data == []
      && AttrsOf(w, oid) == OverlayAll(Overlay(DefaultAttrs(DirectoryT, op.now), op.attrs), SetsOn(after, oid))
  {
    var oid := ChildFileKey(op.parent, op.name);
    var sofar := before + [op];
    PossiblePrefix(Start(now), sofar, after);
    hide Overlay, OverlayAll, SetsOn, Decode, Refill, NewMeta, Readable, KeyOf, NodeOf, Start, Replaces;
    assert sofar[..|sofar| - 1] == before && sofar[|sofar| - 1] == op;
    NewFile(now, before, op);
    assert After(now, sofar) == Next(After(now, before), op);
    AttributesKept(now, sofar, after, oid);
    NothingDisappears(Start(now), sofar, after);
  }

  lemma NewFile(now: Time, before: seq<Op>, op: Op)
    requires op.Create? && Possible(now, before) && Allowed(After(now, before), op)
    ensures var oid := ChildFileKey(op.parent, op.name);
      && oid in Next(After(now, before), op).bucket
      && AttrsOf(Next(After(now, before), op), oid) == Overlay(DefaultAttrs(DirectoryT, op.now), op.attrs)
  {
    var w, t := After(now, before), TreeRun(StartTree(now), before);
    Simulation(now, before);
    hide KeyOf, NodeOf, Decode, Readable, Run, TreeRun, Start, Refines, Overlay, NewMeta;
    LiveIsStored(w, t);
    ChildIsNew(w, t, op.parent, op.name);
    NewObjectReadable(File(PathOf(op.parent), op.name), op.attrs, op.now);
  }

  lemma {:induction false} PossiblePrefix(w: World, before: seq<Op>, after: seq<Op>)
    requires AllowedRun(w, before + after)
    ensures AllowedRun(w, before)
  {
    hide Allowed, Run;
    var ops := before + after;
    if after == [] {
      assert ops == before;
    } else {
      assert ops[..|ops| - 1] == before + after[..|after| - 1];
      PossiblePrefix(w, before, after[..|after| - 1]);
    }
  }

  // ----- setattrs -----

  function MergeAll(sets: seq<AttrList>): AttrList {
    if sets == [] then ZERO_ATTRS else Merge(MergeAll(sets[..|sets| - 1]), sets[|sets| - 1])
  }

  ghost function SetAll(oid: string, sets: seq<AttrList>): seq<Op> {
    if sets == [] then [] else SetAll(oid, sets[..|sets| - 1]) + [SetAttrs(oid, sets[|sets| - 1])]
  }

  lemma {:induction false} MergeAllowed(sets: seq<AttrList>)
    requires forall i :: 0 <= i < |sets| ==> Supported(sets[i]) && ModeReadable(sets[i])
    ensures Supported(MergeAll(sets)) && ModeReadable(MergeAll(sets))
  {
    if sets != [] {
      MergeAllowed(sets[..|sets| - 1]);
    }
  }

  lemma RefillZero(d: Dict)
    ensures Refill(ZERO_ATTRS, d) == d
  {
  }

  /** Any series of setattrs calls on one handle leaves the store, byte for byte, as one call does with
      the masks united and later values winning. */
  lemma {:induction false} SetattrsMerge(w: World, oid: string, sets: seq<AttrList>)
    requires oid in w.bucket
    ensures Run(w, SetAll(oid, sets)) == Next(w, SetAttrs(oid, MergeAll(sets)))
  {
    hide Refill, Merge;
    if sets == [] {
      RefillZero(w.bucket[oid].meta);
      assert w.bucket[oid := w.bucket[oid]] == w.bucket;
    } else {
      var init, a := sets[..|sets| - 1], sets[|sets| - 1];
      var ops := SetAll(oid, sets);
      SetattrsMerge(w, oid, init);
      assert ops[..|ops| - 1] == SetAll(oid, init) && ops[|ops| - 1] == SetAttrs(oid, a);
      RefillTwice(MergeAll(init), a, w.bucket[oid].meta);
    }
  }

  lemma SetattrsIdempotent(w: World, oid: string, a: AttrList)
    ensures Next(Next(w, SetAttrs(oid, a)), SetAttrs(oid, a)) == Next(w, SetAttrs(oid, a))
  {
    hide Refill;
    if oid in w.bucket {
      RefillIdempotent(a, w.bucket[oid].meta);
    }
  }

  // ----- directories -----

  /** The names of the files, and of the directories, that the run created under this handle. */
  ghost function FilesMade(ops: seq<Op>, parent: string): set<string> {
    set i | 0 <= i < |ops| && ops[i].Create? && ops[i].parent == parent :: ops[i].name
  }

  ghost function DirsMade(ops: seq<Op>, parent: string): set<string> {
    set i | 0 <= i < |ops| && ops[i].Makedir? && ops[i].parent == parent :: ops[i].name
  }

  /** The children of a directory, each once for each kind it was created as. */
  ghost function Children(ops: seq<Op>, oid: string): multiset<string> {
    multiset(FilesMade(ops, oid)) + multiset(DirsMade(ops, oid))
  }

  lemma {:induction false} TreeNodes(now: Time, ops: seq<Op>, p: seq<string>, name: string)
    requires Possible(now, ops) && ValidPath(p)
    ensures HasFile(TreeRun(StartTree(now), ops).Keys, p, name) <==> name in FilesMade(ops, DirKey(p))
    ensures HasDir(TreeRun(StartTree(now), ops).Keys, p, name) <==> name in DirsMade(ops, DirKey(p))
  {
    hide Refines, Allowed, TreeNext, HasFile, HasDir, FilesMade, DirsMade, DirKey, Start, StartTree;
    if ops == [] {
      TreeNodesStart(now, p, name);
    } else {
      var init, op := ops[..|ops| - 1], ops[|ops| - 1];
      TreeNodes(now, init, p, name);
      Simulation(now, init);
      assert ops == init + [op];
      TreeNodesStep(After(now, init), TreeRun(StartTree(now), init), op, p, name);
      MadeSnoc(init, op, DirKey(p), name);
    }
  }

  lemma TreeNodesStart(now: Time, p: seq<string>, name: string)
    ensures !HasFile(StartTree(now).Keys, p, name) && !HasDir(StartTree(now).Keys, p, name)
    ensures name !in FilesMade([], DirKey(p)) && name !in DirsMade([], DirKey(p))
  {
  }

  lemma MadeSnoc(init: seq<Op>, op: Op, parent: string, name: string)
    ensures name in FilesMade(init + [op], parent)
      <==> (name in FilesMade(init, parent) || (op.Create? && op.parent == parent && op.name == name))
    ensures name in DirsMade(init + [op], parent)
      <==> (name in DirsMade(init, parent) || (op.Makedir? && op.parent == parent && op.name == name))
  {
    var ops := init + [op];
    assert ops[|init|] == op && forall i :: 0 <= i < |init| ==> ops[i] == init[i];
  }

  lemma TreeNodesStep(w: World, t: Tree, op: Op, p: seq<string>, name: string)
    requires Refines(w, t) && Allowed(w, op) && ValidPath(p)
    ensures HasFile(TreeNext(t, op).Keys, p, name)
      <==> (HasFile(t.Keys, p, name) || (op.Create? && op.parent == DirKey(p) && op.name == name))
    ensures HasDir(TreeNext(t, op).Keys, p, name)
      <==> (HasDir(t.Keys, p, name) || (op.Makedir? && op.parent == DirKey(p) && op.name == name))
  {
    hide Refines, KeyOf, NodeOf, DirKey, Overlay;
    LiveIsStored(w, t);
    if op.Makedir? || op.Create? {
      KeyLeadsBack(w, t, op.parent);
      DirKeyOf(p);
      var q := PathOf(op.parent);
      DirKeyOf(q);
      if DirKey(q) == DirKey(p) {
        KeyInjective(Dir(q), Dir(p));
      }
      if q + [op.name] == p + [name] {
        assert q == (q + [op.name])[..|q|] == p;
        assert (q + [op.name])[|q|] == (p + [name])[|p|];
      }
    }
  }

  lemma {:induction false} CountNames(s: seq<string>, names: set<string>)
    requires NoRepeats(s) && forall x :: x in s <==> x in names
    ensures multiset(s) == multiset(names) && |s| == |names|
  {
    if s == [] {
      assert names == {};
    } else {
      var rest := s[1..];
      assert s == [s[0]] + rest;
      assert s[0] !in rest;
      assert names == (names - {s[0]}) + {s[0]};
      CountNames(rest, names - {s[0]});
    }
  }

  /** After any run, the entries the store lists for a directory handle are the directory itself and
      the children the run created under the handle. */
  lemma ListedChildren(now: Time, ops: seq<Op>, oid: string, contents: seq<string>, prefixes: seq<string>)
    requires Possible(now, ops) && oid in After(now, ops).live && IsDirOid(oid)
    requires IsListing(After(now, ops).bucket.Keys, ListingPrefix(oid), contents, prefixes)
    ensures contents != [] && contents[0] == oid
    ensures multiset(Bases(contents[1..])) == multiset(FilesMade(ops, oid)) && |contents| - 1 == |FilesMade(ops, oid)|
    ensures multiset(Bases(prefixes)) == multiset(DirsMade(ops, oid)) && |prefixes| == |DirsMade(ops, oid)|
  {
    var w, t := After(now, ops), TreeRun(StartTree(now), ops);
    Simulation(now, ops);
    hide Run, TreeRun, Start, StartTree, KeyOf, NodeOf, DirKey, IsListing, Stored, AllowedRun;
    hide FilesMade, DirsMade, NoRepeats, Bases;
    KeyLeadsBack(w, t, oid);
    var p := PathOf(oid);
    SelfKeyIsFirst(t.Keys, p, contents, prefixes);
    FilesOfDirectory(t.Keys, p, contents, prefixes);
    SubdirectoriesOfDirectory(t.Keys, p, contents, prefixes);
    forall name
      ensures HasFile(t.Keys, p, name) <==> name in FilesMade(ops, oid)
      ensures HasDir(t.Keys, p, name) <==> name in DirsMade(ops, oid)
    {
      TreeNodes(now, ops, p, name);
    }
    CountNames(Bases(contents[1..]), FilesMade(ops, oid));
    CountNames(Bases(prefixes), DirsMade(ops, oid));
  }

  /** Listing refines the tree: after any run, reading any directory handle collects the children that
      the run created under this very handle, each once for each kind -- so no grandchild, not the
      directory itself, and a name twice only if it was used for both kinds -- in whatever batches the
      listing comes, as long as they are well batched. */
  lemma DirectoryListing(now: Time, ops: seq<Op>, oid: string, bs: seq<Batch>)
    requires Possible(now, ops) && oid in After(now, ops).live && IsDirOid(oid)
    requires Delivers(After(now, ops).bucket, ListingPrefix(oid), bs) && BatchLaws.WellBatched(bs)
    ensures multiset(BatchLaws.Run([], bs)) == Children(ops, oid)
  {
    hide Run, AllowedRun, FilesMade, DirsMade, IsListing, BatchLaws.WellBatched, BatchLaws.Run, BatchLaws.Wanted;
    hide BatchLaws.AllContents, BatchLaws.AllPrefixes, Bases;
    ListedChildren(now, ops, oid, BatchLaws.AllContents(bs), BatchLaws.AllPrefixes(bs));
    BatchLaws.BatchIndependence(bs);
    BatchLaws.WantedNames(bs);
  }

  /** How many names are wanted: one for each child and kind, however the listing is split. */
  lemma WantedCount(now: Time, ops: seq<Op>, oid: string, bs: seq<Batch>)
    requires Possible(now, ops) && oid in After(now, ops).live && IsDirOid(oid)
    requires Delivers(After(now, ops).bucket, ListingPrefix(oid), bs)
    ensures |BatchLaws.Wanted(bs)| == |FilesMade(ops, oid)| + |DirsMade(ops, oid)| == |Children(ops, oid)|
  {
    hide Run, AllowedRun, FilesMade, DirsMade, IsListing, BatchLaws.AllNames, Bases;
    hide BatchLaws.AllContents, BatchLaws.AllPrefixes;
    ListedChildren(now, ops, oid, BatchLaws.AllContents(bs), BatchLaws.AllPrefixes(bs));
    BatchLaws.AllNamesCount(bs);
  }

  /** No other delivery gives the children: when the first batch to hold anything holds a content, the
      array ends up with the children exactly if the delivery is well batched. */
  lemma DeliveryIsExact(now: Time, ops: seq<Op>, oid: string, bs: seq<Batch>)
    requires Possible(now, ops) && oid in After(now, ops).live && IsDirOid(oid)
    requires Delivers(After(now, ops).bucket, ListingPrefix(oid), bs) && BatchLaws.FirstHasContent(bs)
    ensures multiset(BatchLaws.Run([], bs)) == Children(ops, oid) <==> BatchLaws.WellBatched(bs)
  {
    hide Run, AllowedRun, Delivers, FilesMade, DirsMade, BatchLaws.WellBatched, BatchLaws.Run, BatchLaws.Wanted;
    hide BatchLaws.FirstHasContent, Children;
    if BatchLaws.WellBatched(bs) {
      DirectoryListing(now, ops, oid, bs);
    } else {
      BatchLaws.NamesLost(bs);
      WantedCount(now, ops, oid, bs);
      assert |multiset(BatchLaws.Run([], bs))| == |BatchLaws.Run([], bs)|;
    }
  }

  /** The store delivers in byte order, and the key of the directory is the least of its listing: so the
      first batch to hold anything does hold a content. */
  lemma OrderedDelivery(now: Time, ops: seq<Op>, oid: string, bs: seq<Batch>)
    requires Possible(now, ops) && oid in After(now, ops).live && IsDirOid(oid)
    requires Delivers(After(now, ops).bucket, ListingPrefix(oid), bs) && BatchLaws.InByteOrder(bs)
    ensures BatchLaws.FirstHasContent(bs)
  {
    var contents, prefixes := BatchLaws.AllContents(bs), BatchLaws.AllPrefixes(bs);
    ListedChildren(now, ops, oid, contents, prefixes);
    hide Run, AllowedRun, FilesMade, DirsMade, BatchLaws.InByteOrder, BatchLaws.FirstHasContent, Less, Bases;
    hide BatchLaws.AllContents, BatchLaws.AllPrefixes, FirstSlash;
    forall c | c in prefixes
      ensures Less(oid, c)
    {
      var k :| k in After(now, ops).bucket.Keys && RollsUpTo(k, oid, c);
      assert oid < c;
      PrefixIsLess(oid, c);
    }
    BatchLaws.LeastComesFirst(bs, oid);
  }

  /** A well-batched delivery stays inside the 100 slots exactly when the run created at most 100
      children under the handle. */
  lemma DirectoryFits(now: Time, ops: seq<Op>, oid: string, bs: seq<Batch>)
    requires Possible(now, ops) && oid in After(now, ops).live && IsDirOid(oid)
    requires Delivers(After(now, ops).bucket, ListingPrefix(oid), bs) && BatchLaws.WellBatched(bs)
    ensures BatchLaws.Fits([], bs) <==> |FilesMade(ops, oid)| + |DirsMade(ops, oid)| <= SLOTS
  {
    hide Run, AllowedRun, Delivers, FilesMade, DirsMade, BatchLaws.WellBatched, BatchLaws.Fits, BatchLaws.Wanted;
    BatchLaws.FitsExactly(bs);
    WantedCount(now, ops, oid, bs);
  }

  /** Reading through the handle of a file with a name of one byte lists the directory it is in. */
  lemma FileHandleListing(now: Time, ops: seq<Op>, parent: string, name: string, bs: seq<Batch>)
    requires Possible(now, ops) && parent in After(now, ops).live && IsDirOid(parent)
    requires ValidName(name) && |name| == 1
    requires Delivers(After(now, ops).bucket, ListingPrefix(ChildFileKey(parent, name)), bs)
    requires BatchLaws.WellBatched(bs)
    ensures multiset(BatchLaws.Run([], bs)) == Children(ops, parent)
  {
    hide Run, AllowedRun, Delivers, Children, BatchLaws.WellBatched, BatchLaws.Run;
    assert name[0] in name;
    assert ListingPrefix(ChildFileKey(parent, name)) == parent == ListingPrefix(parent);
    DirectoryListing(now, ops, parent, bs);
  }

  lemma {:induction false} OidsFit(now: Time, ops: seq<Op>, oid: string)
    requires Possible(now, ops) && oid in After(now, ops).live
    ensures |oid| < BUF_SIZE
  {
    if ops != [] {
      var init, op := ops[..|ops| - 1], ops[|ops| - 1];
      assert Allowed(After(now, init), op);
      if oid in After(now, init).live {
        OidsFit(now, init, oid);
      }
    }
  }

  /** Reading a directory with a callback that always accepts: after any run, the callback gets the
      children, each once for each kind, if there are at most 100 of them. */
  method ReadDirectory(conn: S3Connector, h: ObjHandle, batches: seq<Batch>, ghost now: Time, ghost ops: seq<Op>)
    returns (outcome: Outcome, given: seq<string>)
    requires Possible(now, ops) && conn.bucket == After(now, ops).bucket && conn.currentState == Initialized
    requires h.oid in After(now, ops).live && IsDirOid(h.oid)
    requires Delivers(conn.bucket, ListingPrefix(h.oid), batches) && BatchLaws.WellBatched(batches)
    ensures outcome == if |FilesMade(ops, h.oid)| + |DirsMade(ops, h.oid)| <= SLOTS then Done else Fault
    ensures outcome == Done ==> multiset(given) == Children(ops, h.oid)
  {
    hide Run, AllowedRun, Delivers, Children, FilesMade, DirsMade, BatchLaws.WellBatched, BatchLaws.Fits, BatchLaws.Run;
    OidsFit(now, ops, h.oid);
    DirectoryFits(now, ops, h.oid, batches);
    DirectoryListing(now, ops, h.oid, batches);
    var eof;
    outcome, given, eof := CloudReadDirents(conn, h, batches, (before, name, count) => true);
    ghost var names := BatchLaws.Run([], batches);
    if outcome == Done {
      assert given <= names && |given| == |names|;
      assert given == names[..|given|] == names;
    }
  }

  /** A lookup by name under a directory handle finds something exactly when the run created a file of
      that name there; a directory of that name cannot be looked up. */
  lemma LookupFindsFiles(now: Time, ops: seq<Op>, parent: string, name: string)
    requires Possible(now, ops) && parent in After(now, ops).live && IsDirOid(parent) && ValidName(name)
    ensures ChildFileKey(parent, name) in After(now, ops).bucket <==> name in FilesMade(ops, parent)
  {
    var w, t := After(now, ops), TreeRun(StartTree(now), ops);
    Simulation(now, ops);
    hide Run, TreeRun, Start, StartTree, KeyOf, NodeOf, DirKey, Stored, AllowedRun;
    ChildIsNew(w, t, parent, name);
    KeyLeadsBack(w, t, parent);
    var p := PathOf(parent);
    var n := File(p, name);
    TreeNodes(now, ops, p, name);
    if ChildFileKey(parent, name) in w.bucket {
      var m :| m in t.Keys && KeyOf(m) == KeyOf(n);
      KeyInjective(m, n);
    }
    if HasFile(t.Keys, p, name) {
      assert KeyOf(n) in KeysOf(t.Keys);
    }
  }

  // ----- handle keys -----

  /** The handles a run hands out are those of the nodes in the tree it builds, and the bytes of
      handle_to_key and handle_digest, the oid, tell them apart: the tokenizer recovers the chain of
      names and the kind from them. */
  lemma HandleKeys(now: Time, ops: seq<Op>, x: string, y: string)
    requires Possible(now, ops) && x in After(now, ops).live && y in After(now, ops).live
    ensures NodeOf(x) in TreeRun(StartTree(now), ops) && KeyOf(NodeOf(x)) == x
    ensures x == y <==> NodeOf(x) == NodeOf(y)
  {
    var w, t := After(now, ops), TreeRun(StartTree(now), ops);
    Simulation(now, ops);
    hide Run, TreeRun, Start, StartTree, KeyOf, NodeOf, AllowedRun, Refines;
    LiveIsStored(w, t);
    KeyLeadsBack(w, t, x);
    KeyLeadsBack(w, t, y);
  }

  /** The handle of a new object stands for its parent's chain, extended by the name. */
  lemma MadeHandle(now: Time, ops: seq<Op>, parent: string, name: string)
    requires Possible(now, ops) && parent in After(now, ops).live && IsDirOid(parent) && ValidName(name)
    ensures NodeOf(ChildDirKey(parent, name)) == Dir(PathOf(parent) + [name])
    ensures NodeOf(ChildFileKey(parent, name)) == File(PathOf(parent), name)
  {
    var w, t := After(now, ops), TreeRun(StartTree(now), ops);
    Simulation(now, ops);
    hide Run, TreeRun, Start, StartTree, KeyOf, NodeOf, AllowedRun, Refines;
    LiveIsStored(w, t);
    ChildIsNew(w, t, parent, name);
    NodeOfKey(Dir(PathOf(parent) + [name]));
    NodeOfKey(File(PathOf(parent), name));
  }

  /** What the key and the digest are for: after any run, the key of one handle and the digest of another
      hold the same bytes exactly when both handles stand for one place in the tree. */
  method KeyMeetsDigest(x: ObjHandle, y: ObjHandle, addr: array<char>, ghost now: Time, ghost ops: seq<Op>)
    returns (same: bool)
    requires Possible(now, ops) && x.oid in After(now, ops).live && y.oid in After(now, ops).live
    requires |y.oid| <= addr.Length
    modifies addr
    ensures same <==> NodeOf(x.oid) == NodeOf(y.oid)
  {
    hide Run, TreeRun, AllowedRun, KeyOf, NodeOf;
    HandleKeys(now, ops, x.oid, y.oid);
    var key := CloudHandleToKey(x);
    var len := CloudHandleDigest(y, addr);
    same := addr[..len] == key;
  }
}
