/** handle.c: the file-system operations over the flat store. */
module FileSystem {
  import opened Decimal
  import opened CloudStructures
  import opened Attributes
  import opened AttributeLaws
  import opened PathTokenizer
  import opened Namespace
  import opened ListAccumulator
  import opened Connector
  import BatchLaws
  import Listing

  /** Every object carries exactly the 13 metadata entries. */
  ghost predicate StoreOk(b: Bucket) {
    forall k :: k in b ==> WellFormed(b[k].meta)
  }

  /** The dictionary of a new object (handle.c:124-125, 165-166): directory defaults, whatever the
      object is to be, under the attributes given. */
  ghost function NewMeta(oid: string, a: AttrList, now: Time): Dict {
    Refill(a, Defaults(DirectoryT, oid, PrintTime(now)))
  }

  ghost function NewObject(oid: string, a: AttrList, now: Time): Object {
    Object([], NewMeta(oid, a, now))
  }

  lemma NewMetaWellFormed(oid: string, a: AttrList, now: Time)
    ensures WellFormed(NewMeta(oid, a, now))
  {
  }

  lemma NewMetaInFull(oid: string, a: AttrList, now: Time)
    ensures NewEntries(NewMeta(oid, a, now), oid, a, now)
  {
    hide Refill, Defaults, NewEntries;
    NewInFull(oid, a, now);
  }

  /** How an operation that reads an object can end.  When the store has nothing to read, the entries
      of the local dictionary keep null names, and the code that scans them does not return. */
  datatype Outcome = Done | Exited | Fault

  /** The part shared by cloud_lookup and cloud_lookup_path: fetch an object and fill a new handle. */
  method FetchHandle(conn: S3Connector, oid: string) returns (h: ObjHandle?)
    requires StoreOk(conn.bucket)
    ensures h == null <==> oid !in conn.bucket
    ensures h != null ==> fresh(h) && h.oid == oid
    ensures h != null ==> h.attributes == Decode(conn.bucket[oid].meta, ZERO_ATTRS)
    ensures h != null ==> EntriesRead(conn.bucket[oid].meta, ZERO_ATTRS, h.attributes)
    ensures h != null ==> h.objectType == h.attributes.objectType
  {
    hide Decode, DictOf, Fill, EntriesRead;
    var metadata := new Entry[METADATACOUNT](_ => Entry("", ""));
    var fp := new TempFile();
    if oid in conn.bucket {
      WellFormedSize(conn.bucket[oid].meta);
    }
    var found, count := conn.GetObject(oid, metadata, fp);
    if !found {
      return null;
    }
    assert metadata[..count] == metadata[..];
    h := new ObjHandle(oid);
    FillListed(metadata[..], conn.bucket[oid].meta, h.attributes, h.objectType);
    DecodeReads(conn.bucket[oid].meta, ZERO_ATTRS);
    FillAttrlist(metadata, h);
  }

  /** cloud_lookup: the key is built without a trailing '/', so it can only name a file. */
  method CloudLookup(conn: S3Connector, parent: ObjHandle, name: string) returns (h: ObjHandle?)
    requires StoreOk(conn.bucket) && |parent.oid| + |name| < BUF_SIZE
    ensures h == null <==> ChildFileKey(parent.oid, name) !in conn.bucket
    ensures h != null ==> fresh(h) && h.oid == ChildFileKey(parent.oid, name)
    ensures h != null ==> h.attributes == Decode(conn.bucket[h.oid].meta, ZERO_ATTRS)
    ensures h != null ==> EntriesRead(conn.bucket[h.oid].meta, ZERO_ATTRS, h.attributes)
    ensures h != null ==> h.objectType == h.attributes.objectType
  {
    h := FetchHandle(conn, parent.oid + name);
  }

  /** cloud_lookup_path: whatever the path, the handle is the root's. */
  method CloudLookupPath(conn: S3Connector, path: string) returns (h: ObjHandle?)
    requires StoreOk(conn.bucket)
    ensures h == null <==> ROOTOID !in conn.bucket
    ensures h != null ==> fresh(h) && h.oid == ROOTOID
    ensures h != null ==> h.attributes == Decode(conn.bucket[ROOTOID].meta, ZERO_ATTRS)
    ensures h != null ==> EntriesRead(conn.bucket[ROOTOID].meta, ZERO_ATTRS, h.attributes)
    ensures h != null ==> h.objectType == h.attributes.objectType
  {
    h := FetchHandle(conn, ROOTOID);
  }

  /** The dictionary for a new object, or none when an unsupported type ends the process. */
  method NewMetadata(oid: string, fattr: AttrList, now: Time) returns (metadata: array?<Entry>)
    ensures metadata == null <==> !Supported(fattr)
    ensures metadata != null ==> fresh(metadata) && metadata.Length == METADATACOUNT
    ensures metadata != null ==> Lists(metadata[..], NewMeta(oid, fattr, now))
  {
    hide DictOf, Refill, Defaults, DistinctNames, PrintTime;
    metadata := SetDefaultMetadata(DirectoryT, oid, now);
    var exited := RefillMetadata(fattr, metadata);
    if exited {
      metadata := null;
    }
  }

  /** The part shared by cloud_create and cloud_makedir.  No handle comes back when an unsupported type
      ends the process, which is before anything is stored. */
  method PutNewObject(conn: S3Connector, oid: string, fattr: AttrList, now: Time) returns (h: ObjHandle?)
    requires StoreOk(conn.bucket)
    modifies conn`bucket
    ensures StoreOk(conn.bucket)
    ensures h == null <==> !Supported(fattr)
    ensures conn.bucket ==
      if Supported(fattr) && conn.currentState == Initialized then old(conn.bucket)[oid := NewObject(oid, fattr, now)]
      else old(conn.bucket)
    ensures h != null ==> fresh(h) && h.oid == oid
    ensures h != null && conn.currentState == Initialized ==>
      oid in conn.bucket && NewEntries(conn.bucket[oid].meta, oid, fattr, now)
    ensures h != null ==> h.attributes == Decode(NewMeta(oid, fattr, now), ZERO_ATTRS)
    ensures h != null ==> h.objectType == h.attributes.objectType
  {
    hide Decode, DictOf, Fill, NewMeta, DistinctNames, NewEntries;
    NewMetaInFull(oid, fattr, now);
    var metadata := NewMetadata(oid, fattr, now);
    if metadata == null {
      return null;
    }
    ghost var meta := NewMeta(oid, fattr, now);
    NewMetaWellFormed(oid, fattr, now);
    WellFormedSize(meta);
    conn.PutObject(oid, metadata, null, []);
    if oid in conn.bucket {
      WellFormedSize(conn.bucket[oid].meta);
    }
    var filled, count := conn.GetObjectMetadata(oid, metadata);
    assert filled ==> metadata[..count] == metadata[..];
    assert Lists(metadata[..], meta);
    h := new ObjHandle(oid);
    FillListed(metadata[..], meta, h.attributes, h.objectType);
    FillAttrlist(metadata, h);
  }

  method CloudCreate(conn: S3Connector, parent: ObjHandle, name: string, fattr: AttrList, now: Time)
    returns (h: ObjHandle?)
    requires StoreOk(conn.bucket) && |parent.oid| + |name| < BUF_SIZE
    modifies conn`bucket
    ensures StoreOk(conn.bucket)
    ensures h == null <==> !Supported(fattr)
    ensures var oid := ChildFileKey(parent.oid, name);
      conn.bucket ==
        if Supported(fattr) && conn.currentState == Initialized then old(conn.bucket)[oid := NewObject(oid, fattr, now)]
        else old(conn.bucket)
    ensures h != null ==> fresh(h) && h.oid == ChildFileKey(parent.oid, name)
    ensures h != null && conn.currentState == Initialized ==>
      h.oid in conn.bucket && NewEntries(conn.bucket[h.oid].meta, h.oid, fattr, now)
    ensures h != null ==> h.attributes == Decode(NewMeta(h.oid, fattr, now), ZERO_ATTRS)
    ensures h != null ==> h.objectType == h.attributes.objectType
  {
    h := PutNewObject(conn, parent.oid + name, fattr, now);
  }

  method CloudMakedir(conn: S3Connector, parent: ObjHandle, name: string, fattr: AttrList, now: Time)
    returns (h: ObjHandle?)
    requires StoreOk(conn.bucket) && |parent.oid| + |name| + 1 < BUF_SIZE
    modifies conn`bucket
    ensures StoreOk(conn.bucket)
    ensures h == null <==> !Supported(fattr)
    ensures var oid := ChildDirKey(parent.oid, name);
      conn.bucket ==
        if Supported(fattr) && conn.currentState == Initialized then old(conn.bucket)[oid := NewObject(oid, fattr, now)]
        else old(conn.bucket)
    ensures h != null ==> fresh(h) && h.oid == ChildDirKey(parent.oid, name)
    ensures h != null && conn.currentState == Initialized ==>
      h.oid in conn.bucket && NewEntries(conn.bucket[h.oid].meta, h.oid, fattr, now)
    ensures h != null ==> h.attributes == Decode(NewMeta(h.oid, fattr, now), ZERO_ATTRS)
    ensures h != null ==> h.objectType == h.attributes.objectType
  {
    h := PutNewObject(conn, parent.oid + name + "/", fattr, now);
  }

  /** cloud_getattrs overwrites the attributes of the handle and adds to its mask. */
  method CloudGetattrs(conn: S3Connector, h: ObjHandle) returns (outcome: Outcome)
    requires StoreOk(conn.bucket)
    modifies h`attributes, h`objectType
    ensures outcome == if conn.currentState == Initialized && h.oid in conn.bucket then Done else Fault
    ensures outcome == Done ==> h.attributes == Decode(conn.bucket[h.oid].meta, old(h.attributes))
    ensures outcome == Done ==> EntriesRead(conn.bucket[h.oid].meta, old(h.attributes), h.attributes)
    ensures outcome == Done ==> h.objectType == h.attributes.objectType
    ensures outcome == Fault ==> h.attributes == old(h.attributes) && h.objectType == old(h.objectType)
  {
    hide Decode, DictOf, Fill, EntriesRead;
    var metadata := new Entry[METADATACOUNT](_ => Entry("", ""));
    if h.oid in conn.bucket {
      WellFormedSize(conn.bucket[h.oid].meta);
    }
    var filled, count := conn.GetObjectMetadata(h.oid, metadata);
    if !filled {
      return Fault;
    }
    assert metadata[..count] == metadata[..];
    FillListed(metadata[..], conn.bucket[h.oid].meta, h.attributes, h.objectType);
    DecodeReads(conn.bucket[h.oid].meta, h.attributes);
    FillAttrlist(metadata, h);
    outcome := Done;
  }

  /** The bits that make _refill_metadata touch the dictionary. */
  const ENCODED_BITS: set<Bit> :=
    {TypeBit, SizeBit, FileIdBit, ModeBit, OwnerBit, GroupBit, ATimeBit, CTimeBit, ChgTimeBit, MTimeBit, SpaceUsedBit}

  /** The bucket after a successful cloud_setattrs: one object has new metadata and its old data. */
  ghost function WithAttrs(b: Bucket, oid: string, a: AttrList): Bucket
    requires oid in b
  {
    b[oid := Object(b[oid].data, Refill(a, b[oid].meta))]
  }

  method CloudSetattrs(conn: S3Connector, h: ObjHandle, fattrs: AttrList) returns (outcome: Outcome)
    requires StoreOk(conn.bucket)
    modifies conn`bucket
    ensures StoreOk(conn.bucket)
    ensures outcome ==
      if !Supported(fattrs) then Exited
      else if conn.currentState == Initialized && h.oid in conn.bucket then Done
      else if conn.currentState == Initialized || fattrs.mask * ENCODED_BITS != {} then Fault
      else Done
    ensures conn.bucket ==
      if Supported(fattrs) && conn.currentState == Initialized && h.oid in old(conn.bucket)
      then WithAttrs(old(conn.bucket), h.oid, fattrs)
      else old(conn.bucket)
    ensures conn.bucket.Keys == old(conn.bucket).Keys
    ensures outcome == Done && conn.currentState == Initialized ==>
      && EntriesWritten(fattrs, old(conn.bucket)[h.oid].meta, conn.bucket[h.oid].meta)
      && conn.bucket[h.oid].data == old(conn.bucket)[h.oid].data
      && forall k :: k in conn.bucket && k != h.oid ==> conn.bucket[k] == old(conn.bucket)[k]
  {
    hide DictOf, Refill, EntriesWritten;
    var metadata := new Entry[METADATACOUNT](_ => Entry("", ""));
    if h.oid in conn.bucket {
      WellFormedSize(conn.bucket[h.oid].meta);
      RefillWellFormed(fattrs, conn.bucket[h.oid].meta);
    }
    var filled, count := conn.GetObjectMetadata(h.oid, metadata);
    assert filled ==> metadata[..count] == metadata[..];
    var exited := RefillMetadata(fattrs, metadata);
    if exited {
      return Exited;
    }
    if !filled && (conn.currentState == Initialized || fattrs.mask * ENCODED_BITS != {}) {
      return Fault;
    }
    if filled {
      RefillWrites(fattrs, conn.bucket[h.oid].meta);
    }
    conn.PutObjectMetadata(h.oid, metadata);
    outcome := Done;
  }

  // ----- readdir -----

  /** The prefix that is listed: for a handle whose oid does not end in '/', the last byte is cut. */
  function ListingPrefix(oid: string): string
    requires oid != ""
  {
    if oid[|oid| - 1] == '/' then oid else oid[..|oid| - 1]
  }

  /** The batches make up the store's answer to a listing of this prefix. */
  ghost predicate Delivers(b: Bucket, prefix: string, batches: seq<Batch>) {
    Listing.IsListing(b.Keys, prefix, BatchLaws.AllContents(batches), BatchLaws.AllPrefixes(batches))
  }

  /** The callback got the names in order, accepted all but the last, and declined that one unless it
      is the last name. */
  ghost predicate Given(given: seq<string>, names: seq<string>, cb: (seq<string>, string, nat) -> bool) {
    && given <= names
    && (forall i :: 0 <= i < |given| - 1 ==> cb(given[..i], given[i], |names|))
    && (|given| < |names| ==> given != [] && !cb(given[..|given| - 1], given[|given| - 1], |names|))
  }

  /** cloud_read_dirents hands the collected names to the callback until it declines one.  The callback
      may use all it was given before.  `eof` is set in any case, also when names are left.  A listing
      that overruns the slots is a fault, of which nothing more is known. */
  method CloudReadDirents(conn: S3Connector, h: ObjHandle, batches: seq<Batch>,
                          cb: (seq<string>, string, nat) -> bool)
    returns (outcome: Outcome, given: seq<string>, eof: bool)
    requires h.oid != "" && |h.oid| < BUF_SIZE
    requires conn.currentState == Initialized ==> Delivers(conn.bucket, ListingPrefix(h.oid), batches)
    ensures outcome == if conn.currentState == Initialized && !BatchLaws.Fits([], batches) then Fault else Done
    ensures outcome == Done ==> eof
    ensures var names := if conn.currentState == Initialized then BatchLaws.Run([], batches) else [];
      outcome == Done ==> Given(given, names, cb)
  {
    hide Delivers, BatchLaws.Run, BatchLaws.Fits;
    var objects := new ObjectList();
    given, eof := [], false;
    var overrun := conn.ListObjects(objects, batches);
    if overrun {
      return Fault, given, eof;
    }
    ghost var names := objects.Names();
    var i := 0;
    while i < objects.objectCount
      invariant 0 <= i <= objects.objectCount == |names| && objects.Valid() && objects.Names() == names
      invariant given == names[..i]
      invariant forall j :: 0 <= j < i ==> cb(given[..j], given[j], |names|)
    {
      var name := objects.objects[i];
      var more := cb(given, name, objects.objectCount);
      ghost var before := given;
      given := given + [name];
      i := i + 1;
      assert before == given[..i - 1] && forall j :: 0 <= j < i - 1 ==> given[..j] == before[..j];
      if !more {
        break;
      }
    }
    eof := true;
    outcome := Done;
  }

  // ----- handle keys -----

  /** cloud_handle_to_key: the key is the oid itself. */
  method CloudHandleToKey(h: ObjHandle) returns (key: string)
    ensures key == h.oid
  {
    key := h.oid;
  }

  /** cloud_handle_digest copies the oid into the caller's buffer. */
  method CloudHandleDigest(h: ObjHandle, addr: array<char>) returns (len: nat)
    requires |h.oid| <= addr.Length
    modifies addr
    ensures len == |h.oid| && addr[..len] == h.oid
    ensures addr[len..] == old(addr[|h.oid|..])
  {
    var i := 0;
    while i < |h.oid|
      invariant 0 <= i <= |h.oid|
      invariant forall j :: 0 <= j < i ==> addr[j] == h.oid[j]
      invariant forall j :: i <= j < addr.Length ==> addr[j] == old(addr[j])
    {
      addr[i] := h.oid[i];
      i := i + 1;
    }
    len := |h.oid|;
  }

  // ----- the initial store -----

  /** cli/create_export.c: puts the root directory, from an empty temporary file. */
  method CreateExport(conn: S3Connector, now: Time)
    requires StoreOk(conn.bucket)
    modifies conn`bucket
    ensures StoreOk(conn.bucket)
    ensures conn.bucket ==
      if conn.currentState == Initialized
      then old(conn.bucket)[ROOTOID := Object([], Defaults(DirectoryT, ROOTOID, PrintTime(now)))]
      else old(conn.bucket)
    ensures conn.currentState == Initialized ==>
      ROOTOID in conn.bucket && DefaultTable(conn.bucket[ROOTOID].meta, DirectoryT, ROOTOID, PrintTime(now))
  {
    var fp := new TempFile();
    var metadata := SetDefaultMetadata(DirectoryT, ROOTOID, now);
    conn.PutObject(ROOTOID, metadata, fp, []);
  }
}
