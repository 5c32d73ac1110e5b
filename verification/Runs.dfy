/** Whole runs of the file system: the flat store refines a tree of names. */
module Runs {
  import opened CText
  import opened Decimal
  import opened CloudStructures
  import opened Attributes
  import opened AttributeLaws
  import opened PathTokenizer
  import opened Namespace
  import opened Listing
  import opened Connector
  import opened FileSystem

  // ----- the flat side -----

  /** The operations that store something or make a handle, as the protocol layer issues them: a
      handle is named by its oid. */
  datatype Op =
    | Makedir(parent: string, name: string, attrs: AttrList, now: Time)
    | Create(parent: string, name: string, attrs: AttrList, now: Time)
    | Lookup(parent: string, name: string)
    | SetAttrs(oid: string, attrs: AttrList)

  /** The bucket, and the oids of the handles handed out so far. */
  datatype World = World(bucket: Bucket, live: set<string>)

  predicate IsDirOid(oid: string) {
    oid != "" && oid[|oid| - 1] == '/'
  }

  /** The store that cli/create_export.c leaves, and the handle of cloud_lookup_path. */
  ghost function Start(now: Time): World {
    World(map[ROOTOID := Object([], Defaults(DirectoryT, ROOTOID, PrintTime(now)))], {ROOTOID})
  }

  /** Exporting into an empty bucket and looking up the root gives the start of every run. */
  method Export(conn: S3Connector, path: string, now: Time) returns (root: ObjHandle?)
    requires conn.bucket == map[] && conn.currentState == Initialized
    modifies conn`bucket
    ensures root != null && fresh(root) && World(conn.bucket, {root.oid}) == Start(now) && StoreOk(conn.bucket)
  {
    hide Decode, Defaults;
    CreateExport(conn, now);
    root := CloudLookupPath(conn, path);
  }

  /** What the operations demand: a live handle, of a directory where one is needed, a file name, keys
      that fit the buffers, and attributes that do not end the process. */
  ghost predicate Allowed(w: World, op: Op) {
    match op
    case Makedir(parent, name, attrs, _) =>
      && parent in w.live && IsDirOid(parent) && ValidName(name) && |parent| + |name| + 1 < BUF_SIZE
      && Supported(attrs) && ModeReadable(attrs)
    case Create(parent, name, attrs, _) =>
      && parent in w.live && IsDirOid(parent) && ValidName(name) && |parent| + |name| < BUF_SIZE
      && Supported(attrs) && ModeReadable(attrs)
    case Lookup(parent, name) =>
      && parent in w.live && IsDirOid(parent) && ValidName(name) && |parent| + |name| < BUF_SIZE
      && ChildFileKey(parent, name) in w.bucket
    case SetAttrs(oid, attrs) =>
      oid in w.live && Supported(attrs) && ModeReadable(attrs)
  }

  ghost function Next(w: World, op: Op): World {
    match op
    case Makedir(parent, name, attrs, now) =>
      var oid := ChildDirKey(parent, name);
      World(w.bucket[oid := NewObject(oid, attrs, now)], w.live + {oid})
    case Create(parent, name, attrs, now) =>
      var oid := ChildFileKey(parent, name);
      World(w.bucket[oid := NewObject(oid, attrs, now)], w.live + {oid})
    case Lookup(parent, name) =>
      w.(live := w.live + {ChildFileKey(parent, name)})
    case SetAttrs(oid, attrs) =>
      if oid in w.bucket then w.(bucket := WithAttrs(w.bucket, oid, attrs)) else w
  }

  ghost function Run(w: World, ops: seq<Op>): World {
    if ops == [] then w else Next(Run(w, ops[..|ops| - 1]), ops[|ops| - 1])
  }

  ghost predicate AllowedRun(w: World, ops: seq<Op>) {
    ops == [] || (AllowedRun(w, ops[..|ops| - 1]) && Allowed(Run(w, ops[..|ops| - 1]), ops[|ops| - 1]))
  }

  /** The handle an operation is issued on. */
  function HandleOf(op: Op): string {
    match op
    case SetAttrs(oid, _) => oid
    case _ => op.parent
  }

  /** The key of the handle an operation makes. */
  function MadeOid(op: Op): string
    requires !op.SetAttrs?
  {
    if op.Makedir? then ChildDirKey(op.parent, op.name) else ChildFileKey(op.parent, op.name)
  }

  predicate FitsBuffers(op: Op) {
    op.SetAttrs? || |MadeOid(op)| < BUF_SIZE
  }

  /** The process is still there after the operation. */
  predicate Survives(op: Op) {
    op.Lookup? || Supported(op.attrs)
  }

  /** The operation table of cloud_handle_ops_init: performing an operation with the methods of the
      file system is the step above, and changes nothing while the connector is down. */
  method Perform(conn: S3Connector, h: ObjHandle, op: Op, ghost live: set<string>) returns (made: ObjHandle?)
    requires StoreOk(conn.bucket) && h.oid == HandleOf(op) && FitsBuffers(op)
    modifies conn`bucket
    ensures StoreOk(conn.bucket)
    ensures conn.bucket ==
      if conn.currentState == Initialized && Survives(op) then Next(World(old(conn.bucket), live), op).bucket
      else old(conn.bucket)
    ensures made != null <==>
      !op.SetAttrs? && Survives(op) && (op.Lookup? ==> MadeOid(op) in old(conn.bucket))
    ensures made != null ==> made.oid == MadeOid(op)
    ensures made != null && (conn.currentState == Initialized || op.Lookup?) ==>
      made.oid in conn.bucket && made.attributes == Decode(conn.bucket[made.oid].meta, ZERO_ATTRS)
    ensures conn.currentState == Initialized && Allowed(World(old(conn.bucket), live), op) ==>
      World(conn.bucket, if made == null then live else live + {made.oid}) == Next(World(old(conn.bucket), live), op)
  {
    hide Decode, NewMeta, Refill, Defaults;
    made := null;
    match op
    case Makedir(_, name, attrs, now) => made := CloudMakedir(conn, h, name, attrs, now);
    case Create(_, name, attrs, now) => made := CloudCreate(conn, h, name, attrs, now);
    case Lookup(_, name) => made := CloudLookup(conn, h, name);
    case SetAttrs(_, attrs) => var outcome := CloudSetattrs(conn, h, attrs);
  }

  // ----- the tree -----

  /** The file system a client sees: attributes by place in the tree, with no keys and no texts. */
  type Tree = map<Node, AttrList>

  const ROOT: Node := Dir([])

  function StartTree(now: Time): Tree {
    map[ROOT := DefaultAttrs(DirectoryT, now)]
  }

  /** The directory behind a directory handle. */
  function PathOf(oid: string): seq<string> {
    NodeOf(oid).Chain()
  }

  function TreeNext(t: Tree, op: Op): Tree {
    match op
    case Makedir(parent, name, attrs, now) =>
      t[Dir(PathOf(parent) + [name]) := Overlay(DefaultAttrs(DirectoryT, now), attrs)]
    case Create(parent, name, attrs, now) =>
      t[File(PathOf(parent), name) := Overlay(DefaultAttrs(DirectoryT, now), attrs)]
    case Lookup(_, _) => t
    case SetAttrs(oid, attrs) =>
      if NodeOf(oid) in t then t[NodeOf(oid) := Overlay(t[NodeOf(oid)], attrs)] else t
  }

  function TreeRun(t: Tree, ops: seq<Op>): Tree {
    if ops == [] then t else TreeNext(TreeRun(t, ops[..|ops| - 1]), ops[|ops| - 1])
  }

  // ----- refinement -----

  /** The object of a node carries, as readable texts, the attributes of the node. */
  ghost predicate Stored(b: Bucket, n: Node, attrs: AttrList) {
    && KeyOf(n) in b
    && Readable(b[KeyOf(n)].meta)
    && Decode(b[KeyOf(n)].meta, ZERO_ATTRS) == attrs
  }

  ghost predicate Refines(w: World, t: Tree) {
    && Closed(t.Keys)
    && w.bucket.Keys == KeysOf(t.Keys)
    && (forall n {:trigger Stored(w.bucket, n, t[n])} :: n in t ==> Stored(w.bucket, n, t[n]))
    && w.live <= w.bucket.Keys
  }

  /** Storing a readable object for a node whose parent is there refines updating the tree. */
  lemma PutRefines(w: World, t: Tree, n: Node, obj: Object, attrs: AttrList)
    requires Refines(w, t) && n.Valid() && HasParent(t.Keys, n)
    requires Readable(obj.meta) && Decode(obj.meta, ZERO_ATTRS) == attrs
    ensures Refines(World(w.bucket[KeyOf(n) := obj], w.live + {KeyOf(n)}), t[n := attrs])
    ensures KeyOf(n) in w.live ==> Refines(w.(bucket := w.bucket[KeyOf(n) := obj]), t[n := attrs])
  {
    hide Readable, Decode, KeyOf;
    var b', t' := w.bucket[KeyOf(n) := obj], t[n := attrs];
    forall m | m in t'
      ensures Stored(b', m, t'[m])
    {
      if m != n {
        assert Stored(w.bucket, m, t[m]);
        if KeyOf(m) == KeyOf(n) {
          KeyInjective(m, n);
        }
      }
    }
    forall m | m in t'
      ensures HasParent(t'.Keys, m)
    {
      assert m in t ==> HasParent(t.Keys, m);
    }
    assert b'.Keys == KeysOf(t'.Keys);
  }

  /** A key in the store leads back to the node it was made for. */
  lemma KeyLeadsBack(w: World, t: Tree, oid: string)
    requires Refines(w, t) && oid in w.bucket
    ensures NodeOf(oid) in t && NodeOf(oid).Valid() && KeyOf(NodeOf(oid)) == oid
    ensures IsDirOid(oid) <==> NodeOf(oid).Dir?
    ensures NodeOf(oid).Dir? ==> ValidPath(PathOf(oid)) && NodeOf(oid) == Dir(PathOf(oid)) && oid == DirKey(PathOf(oid))
  {
    hide KeyOf, NodeOf, Stored;
    var n :| n in t.Keys && KeyOf(n) == oid;
    NodeOfKey(n);
    LastOfKey(n);
    if n.Dir? {
      DirKeyOf(n.path);
    }
  }

  /** The new child of a directory handle. */
  lemma ChildIsNew(w: World, t: Tree, parent: string, name: string)
    requires Refines(w, t) && parent in w.bucket && IsDirOid(parent) && ValidName(name)
    ensures var n := Dir(PathOf(parent) + [name]);
      n.Valid() && HasParent(t.Keys, n) && KeyOf(n) == ChildDirKey(parent, name)
    ensures var n := File(PathOf(parent), name);
      n.Valid() && HasParent(t.Keys, n) && KeyOf(n) == ChildFileKey(parent, name)
  {
    KeyLeadsBack(w, t, parent);
    var p := PathOf(parent);
    ChildKeys(p, name);
    assert (p + [name])[..|p|] == p;
  }

  lemma KeyStart(n: Node)
    ensures "0/" <= KeyOf(n)
  {
  }

  /** A new object decodes to the directory defaults under the attributes given. */
  lemma NewObjectReadable(n: Node, attrs: AttrList, now: Time)
    requires Supported(attrs) && ModeReadable(attrs)
    ensures Readable(NewObject(KeyOf(n), attrs, now).meta)
    ensures Decode(NewObject(KeyOf(n), attrs, now).meta, ZERO_ATTRS) == Overlay(DefaultAttrs(DirectoryT, now), attrs)
  {
    hide Readable, Decode, Refill, Defaults, PrintTime, KeyOf;
    KeyStart(n);
    DefaultsReadable(DirectoryT, KeyOf(n), now);
    RefillReadable(attrs, Defaults(DirectoryT, KeyOf(n), PrintTime(now)));
  }

  lemma StartRefines(now: Time)
    ensures Refines(Start(now), StartTree(now))
  {
    hide Readable, Decode, Defaults, PrintTime;
    DefaultsReadable(DirectoryT, ROOTOID, now);
    assert KeyOf(ROOT) == ROOTOID;
    var t := StartTree(now);
    assert t.Keys == {ROOT} && HasParent(t.Keys, ROOT);
    assert KeysOf({ROOT}) == {ROOTOID};
  }

  /** One operation on the flat store is one operation on the tree. */
  lemma StepRefines(w: World, t: Tree, op: Op)
    requires Refines(w, t) && Allowed(w, op)
    ensures Refines(Next(w, op), TreeNext(t, op))
  {
    hide Refines, Readable, Decode, KeyOf, NodeOf, NewObject, Overlay, Refill, HasParent;
    LiveIsStored(w, t);
    match op
    case Makedir(parent, name, attrs, now) =>
      var n := Dir(PathOf(parent) + [name]);
      ChildIsNew(w, t, parent, name);
      NewObjectReadable(n, attrs, now);
      PutRefines(w, t, n, NewObject(KeyOf(n), attrs, now), Overlay(DefaultAttrs(DirectoryT, now), attrs));
    case Create(parent, name, attrs, now) =>
      var n := File(PathOf(parent), name);
      ChildIsNew(w, t, parent, name);
      NewObjectReadable(n, attrs, now);
      PutRefines(w, t, n, NewObject(KeyOf(n), attrs, now), Overlay(DefaultAttrs(DirectoryT, now), attrs));
    case Lookup(parent, name) =>
      MoreLive(w, t, ChildFileKey(parent, name));
    case SetAttrs(oid, attrs) =>
      var n := NodeOf(oid);
      KeyLeadsBack(w, t, oid);
      StoredNode(w, t, n);
      RefillReadable(attrs, w.bucket[oid].meta);
      PutRefines(w, t, n, WithAttrs(w.bucket, oid, attrs)[oid], Overlay(t[n], attrs));
  }

  lemma LiveIsStored(w: World, t: Tree)
    requires Refines(w, t)
    ensures w.live <= w.bucket.Keys
  {
  }

  lemma MoreLive(w: World, t: Tree, oid: string)
    requires Refines(w, t) && oid in w.bucket
    ensures Refines(w.(live := w.live + {oid}), t)
  {
  }

  lemma StoredNode(w: World, t: Tree, n: Node)
    requires Refines(w, t) && n in t
    ensures Stored(w.bucket, n, t[n]) && HasParent(t.Keys, n) && n.Valid()
  {
  }

  /** Simulation: after any run from the exported root, the store refines the tree that the same
      operations build. */
  lemma {:induction false} Simulation(now: Time, ops: seq<Op>)
    requires AllowedRun(Start(now), ops)
    ensures Refines(Run(Start(now), ops), TreeRun(StartTree(now), ops))
  {
    hide Refines, Next, TreeNext, Start, StartTree;
    if ops == [] {
      StartRefines(now);
    } else {
      var init := ops[..|ops| - 1];
      Simulation(now, init);
      StepRefines(Run(Start(now), init), TreeRun(StartTree(now), init), ops[|ops| - 1]);
    }
  }
}
