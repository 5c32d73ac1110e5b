/** fsal_cloud.h: the masked attribute encoder _refill_metadata and the decoder _fill_attrlist. */
module Attributes {
  import opened Decimal
  import opened CloudStructures

  /** object_file_type_t; OtherType stands for every type the file system does not support. */
  datatype ObjectType = RegularFile | Directory | OtherType

  /** The ATTR_* mask bits. */
  datatype Bit =
    | TypeBit | SizeBit | FsIdBit | FileIdBit | ModeBit | NumLinksBit | OwnerBit | GroupBit
    | ATimeBit | CTimeBit | ChgTimeBit | MTimeBit | SpaceUsedBit

  datatype FileSystemId = FileSystemId(major: UInt64, minor: UInt64)

  /** struct attrlist */
  datatype AttrList = AttrList(
    mask: set<Bit>, objectType: ObjectType, filesize: UInt64, fsid: FileSystemId, fileid: UInt64,
    mode: UInt32, numlinks: UInt32, owner: UInt64, group: UInt64,
    atime: Time, ctime: Time, chgtime: Time, mtime: Time, spaceused: UInt64)

  /** What calloc leaves in a new handle. */
  const ZERO_TIME := Time(0, 0)
  const ZERO_ATTRS :=
    AttrList({}, OtherType, 0, FileSystemId(0, 0), 0, 0, 0, 0, 0, ZERO_TIME, ZERO_TIME, ZERO_TIME, ZERO_TIME, 0)

  /** cloud_fsal_obj_handle */
  class ObjHandle {
    const oid: string
    var attributes: AttrList
    var objectType: ObjectType

    constructor (oid: string)
      ensures this.oid == oid && attributes == ZERO_ATTRS && objectType == OtherType
    {
      this.oid := oid;
      attributes := ZERO_ATTRS;
      objectType := OtherType;
    }
  }

  // ----- encoding -----

  function TypeText(t: ObjectType): string {
    if t == RegularFile then RegularFileT.Text() else DirectoryT.Text()
  }

  /** False exactly when _refill_metadata leaves the process through exit(0). */
  predicate Supported(a: AttrList) {
    TypeBit in a.mask ==> a.objectType != OtherType
  }

  /** The text the mask asks to write into entry `m`, if any. */
  function Encoded(a: AttrList, m: MetaName): Option<string> {
    match m
    case FileType => if TypeBit in a.mask then Some(TypeText(a.objectType)) else None
    case FileSize => if SizeBit in a.mask then Some(PrintNat(a.filesize)) else None
    case FsId => None
    case FileId => if FileIdBit in a.mask then Some(PrintNat(a.fileid)) else None
    case Mode => if ModeBit in a.mask then Some(PrintNat(a.mode)) else None
    case NumLinks => None
    case Owner => if OwnerBit in a.mask then Some(PrintNat(a.owner)) else None
    case Group => if GroupBit in a.mask then Some(PrintNat(a.group)) else None
    case ATime => if ATimeBit in a.mask then Some(PrintTime(a.atime)) else None
    case CTime => if CTimeBit in a.mask then Some(PrintTime(a.ctime)) else None
    case ChgTime => if ChgTimeBit in a.mask then Some(PrintTime(a.chgtime)) else None
    case MTime => if MTimeBit in a.mask then Some(PrintTime(a.mtime)) else None
    case SpaceUsed => if SpaceUsedBit in a.mask then Some(PrintNat(a.spaceused)) else None
  }

  /** The dictionary after the entries with an index below `k` have been refilled. */
  ghost function RefillBelow(a: AttrList, d: Dict, k: nat): Dict {
    map n | n in d ::
      match MetaOf(n)
      case None => d[n]
      case Some(m) => if m.Index() < k && Encoded(a, m).Some? then Encoded(a, m).value else d[n]
  }

  ghost function Refill(a: AttrList, d: Dict): Dict {
    RefillBelow(a, d, METADATACOUNT)
  }

  /** The entry `m` of a dictionary. */
  function Field(d: Dict, m: MetaName): Option<string> {
    if m.Text() in d then Some(d[m.Text()]) else None
  }

  lemma FieldUpdate(d: Dict, m: MetaName, v: string)
    ensures Field(d[m.Text() := v], m) == Some(v)
    ensures forall n: MetaName :: Field(d[m.Text() := v], n) == if n == m then Some(v) else Field(d, n)
  {
  }

  lemma FieldUpdateAt(d: Dict, m: MetaName, v: string, n: MetaName)
    ensures Field(d[m.Text() := v], n) == if n == m then Some(v) else Field(d, n)
  {
    hide MetaName.Text;
    MetaOfText(m);
    MetaOfText(n);
  }

  lemma FieldRefill(a: AttrList, d: Dict, m: MetaName)
    ensures Field(Refill(a, d), m) ==
      if m.Text() in d && Encoded(a, m).Some? then Encoded(a, m) else Field(d, m)
  {
    hide Encoded;
    MetaOfText(m);
  }

  // ----- the encoding in full -----

  /** Entry `n` holds `text` afterwards if it was asked for, and what it held before otherwise. */
  ghost predicate EntryIs(d: Dict, d': Dict, n: string, wanted: bool, text: string) {
    n in d ==> n in d' && d'[n] == if wanted then text else d[n]
  }

  ghost predicate NumbersWritten(a: AttrList, d: Dict, d': Dict) {
    && EntryIs(d, d', "0", TypeBit in a.mask, if a.objectType == RegularFile then "0" else "1")
    && EntryIs(d, d', "1", SizeBit in a.mask, PrintNat(a.filesize))
    && EntryIs(d, d', "3", FileIdBit in a.mask, PrintNat(a.fileid))
    && EntryIs(d, d', "4", ModeBit in a.mask, PrintNat(a.mode))
    && EntryIs(d, d', "6", OwnerBit in a.mask, PrintNat(a.owner))
    && EntryIs(d, d', "7", GroupBit in a.mask, PrintNat(a.group))
    && EntryIs(d, d', "12", SpaceUsedBit in a.mask, PrintNat(a.spaceused))
  }

  ghost predicate TimesWritten(a: AttrList, d: Dict, d': Dict) {
    && EntryIs(d, d', "8", ATimeBit in a.mask, PrintTime(a.atime))
    && EntryIs(d, d', "9", CTimeBit in a.mask, PrintTime(a.ctime))
    && EntryIs(d, d', "10", ChgTimeBit in a.mask, PrintTime(a.chgtime))
    && EntryIs(d, d', "11", MTimeBit in a.mask, PrintTime(a.mtime))
  }

  /** What _refill_metadata makes of a dictionary, name by name and text by text. */
  ghost predicate EntriesWritten(a: AttrList, d: Dict, d': Dict) {
    && d'.Keys == d.Keys
    && NumbersWritten(a, d, d') && TimesWritten(a, d, d')
    && (forall n :: n in d && n !in {"0", "1", "3", "4", "6", "7", "8", "9", "10", "11", "12"} ==> d'[n] == d[n])
  }

  lemma EntryRefilled(a: AttrList, d: Dict, m: MetaName, n: string, wanted: bool, text: string)
    requires m.Text() == n && Encoded(a, m) == if wanted then Some(text) else None
    ensures EntryIs(d, Refill(a, d), n, wanted, text)
  {
    hide Encoded, MetaName.Text;
    MetaOfText(m);
  }

  lemma RefillWritesNumbers(a: AttrList, d: Dict)
    ensures NumbersWritten(a, d, Refill(a, d))
  {
    hide EntryIs, PrintNat, Refill;
    assert RegularFileT.Text() == "0" && DirectoryT.Text() == "1" by { TypeTexts(); }
    hide FileTypeValue.Text;
    var typeText := if a.objectType == RegularFile then "0" else "1";
    EntryRefilled(a, d, FileType, "0", TypeBit in a.mask, typeText);
    EntryRefilled(a, d, FileSize, "1", SizeBit in a.mask, PrintNat(a.filesize));
    EntryRefilled(a, d, FileId, "3", FileIdBit in a.mask, PrintNat(a.fileid));
    EntryRefilled(a, d, Mode, "4", ModeBit in a.mask, PrintNat(a.mode));
    EntryRefilled(a, d, Owner, "6", OwnerBit in a.mask, PrintNat(a.owner));
    EntryRefilled(a, d, Group, "7", GroupBit in a.mask, PrintNat(a.group));
    EntryRefilled(a, d, SpaceUsed, "12", SpaceUsedBit in a.mask, PrintNat(a.spaceused));
  }

  lemma RefillWritesTimes(a: AttrList, d: Dict)
    ensures TimesWritten(a, d, Refill(a, d))
  {
    hide EntryIs, PrintTime, Refill;
    EntryRefilled(a, d, ATime, "8", ATimeBit in a.mask, PrintTime(a.atime));
    EntryRefilled(a, d, CTime, "9", CTimeBit in a.mask, PrintTime(a.ctime));
    EntryRefilled(a, d, ChgTime, "10", ChgTimeBit in a.mask, PrintTime(a.chgtime));
    EntryRefilled(a, d, MTime, "11", MTimeBit in a.mask, PrintTime(a.mtime));
  }

  /** Only the entries that the list has a field for are ever written. */
  lemma RefillKeepsOthers(a: AttrList, d: Dict, n: string)
    requires n in d && n !in {"0", "1", "3", "4", "6", "7", "8", "9", "10", "11", "12"}
    ensures Refill(a, d)[n] == d[n]
  {
    hide PrintNat, PrintTime, TypeText;
    if MetaOf(n).Some? {
      var m := MetaOf(n).value;
      assert m == FsId || m == NumLinks;
    }
  }

  lemma RefillWrites(a: AttrList, d: Dict)
    ensures EntriesWritten(a, d, Refill(a, d))
  {
    RefillWritesNumbers(a, d);
    RefillWritesTimes(a, d);
    hide NumbersWritten, TimesWritten;
    assert Refill(a, d).Keys == d.Keys;
    hide Refill;
    forall n | n in d && n !in {"0", "1", "3", "4", "6", "7", "8", "9", "10", "11", "12"}
      ensures Refill(a, d)[n] == d[n]
    {
      RefillKeepsOthers(a, d, n);
    }
  }

  lemma RefillNothing(a: AttrList, d: Dict)
    ensures RefillBelow(a, d, 0) == d
  {
  }

  lemma RefillStep(a: AttrList, d: Dict, m: MetaName)
    ensures RefillBelow(a, d, m.Index() + 1) ==
      if Encoded(a, m).Some? then Replaced(RefillBelow(a, d, m.Index()), m, Encoded(a, m).value)
      else RefillBelow(a, d, m.Index())
  {
    hide Encoded;
    MetaOfText(m);
    hide MetaName.Index, MetaName.Text;
    forall n | n in d && MetaOf(n).Some?
      ensures MetaOf(n).value.Index() == m.Index() <==> n == m.Text()
    {
      if MetaOf(n).value.Index() == m.Index() {
        IndexInjective(m, MetaOf(n).value);
      }
    }
  }

  /** One masked `sprintf` and replacement. */
  method RefillEntry(metadata: array<Entry>, wanted: bool, m: MetaName, text: string, ghost a: AttrList, ghost d: Dict)
    requires metadata.Length == METADATACOUNT
    requires DictOf(metadata[..]) == RefillBelow(a, d, m.Index())
    requires Encoded(a, m) == if wanted then Some(text) else None
    modifies metadata
    ensures DictOf(metadata[..]) == RefillBelow(a, d, m.Index() + 1)
    ensures old(DistinctNames(metadata[..])) ==> DistinctNames(metadata[..])
  {
    hide Encoded;
    if wanted {
      ReplaceMetadataValue(metadata, m, text);
    }
    RefillStep(a, d, m);
  }

  method RefillIdentity(a: AttrList, metadata: array<Entry>)
    requires metadata.Length == METADATACOUNT && Supported(a)
    modifies metadata
    ensures DictOf(metadata[..]) == RefillBelow(a, old(DictOf(metadata[..])), 8)
    ensures old(DistinctNames(metadata[..])) ==> DistinctNames(metadata[..])
  {
    hide DictOf, DistinctNames, RefillBelow, PrintNat;
    ghost var d := DictOf(metadata[..]);
    RefillNothing(a, d);
    RefillEntry(metadata, TypeBit in a.mask, FileType, TypeText(a.objectType), a, d);
    RefillEntry(metadata, SizeBit in a.mask, FileSize, PrintNat(a.filesize), a, d);
    RefillStep(a, d, FsId);
    RefillEntry(metadata, FileIdBit in a.mask, FileId, PrintNat(a.fileid), a, d);
    RefillEntry(metadata, ModeBit in a.mask, Mode, PrintNat(a.mode), a, d);
    RefillStep(a, d, NumLinks);
    RefillEntry(metadata, OwnerBit in a.mask, Owner, PrintNat(a.owner), a, d);
    RefillEntry(metadata, GroupBit in a.mask, Group, PrintNat(a.group), a, d);
  }

  method RefillTimes(a: AttrList, metadata: array<Entry>, ghost d: Dict)
    requires metadata.Length == METADATACOUNT
    requires DictOf(metadata[..]) == RefillBelow(a, d, 8)
    modifies metadata
    ensures DictOf(metadata[..]) == Refill(a, d)
    ensures old(DistinctNames(metadata[..])) ==> DistinctNames(metadata[..])
  {
    hide DictOf, DistinctNames, RefillBelow, PrintNat, PrintTime;
    RefillEntry(metadata, ATimeBit in a.mask, ATime, PrintTime(a.atime), a, d);
    RefillEntry(metadata, CTimeBit in a.mask, CTime, PrintTime(a.ctime), a, d);
    RefillEntry(metadata, ChgTimeBit in a.mask, ChgTime, PrintTime(a.chgtime), a, d);
    RefillEntry(metadata, MTimeBit in a.mask, MTime, PrintTime(a.mtime), a, d);
    RefillEntry(metadata, SpaceUsedBit in a.mask, SpaceUsed, PrintNat(a.spaceused), a, d);
  }

  /** _refill_metadata: eleven masked replacements, in the order of the source.  An unsupported type
      ends the process before anything is replaced. */
  method RefillMetadata(a: AttrList, metadata: array<Entry>) returns (exited: bool)
    requires metadata.Length == METADATACOUNT
    modifies metadata
    ensures exited <==> !Supported(a)
    ensures exited ==> metadata[..] == old(metadata[..])
    ensures !exited ==> DictOf(metadata[..]) == Refill(a, old(DictOf(metadata[..])))
    ensures !exited ==> EntriesWritten(a, old(DictOf(metadata[..])), DictOf(metadata[..]))
    ensures old(DistinctNames(metadata[..])) ==> DistinctNames(metadata[..])
  {
    if TypeBit in a.mask && a.objectType == OtherType {
      return true;
    }
    exited := false;
    ghost var d := DictOf(metadata[..]);
    RefillIdentity(a, metadata);
    RefillTimes(a, metadata, d);
    hide EntriesWritten;
    RefillWrites(a, d);
  }

  // ----- decoding -----

  function DecodedType(text: string): ObjectType {
    if text == DirectoryT.Text() then Directory else RegularFile
  }

  /** One round of the switch of _fill_attrlist, for the entry of index `k` with text `v`. */
  function FillEntry(k: int, v: string, a: AttrList): AttrList {
    match OfIndex(k)
    case None => a
    case Some(m) =>
      match m
      case FileType => a.(objectType := DecodedType(v), mask := a.mask + {TypeBit})
      case FileSize =>
        a.(filesize := ScanUInt64(v, a.filesize), spaceused := ScanUInt64(v, a.filesize),
           mask := a.mask + {SizeBit} + {SpaceUsedBit})
      case FsId => a.(fsid := FileSystemId(0, 0), mask := a.mask + {FsIdBit})
      case FileId => a.(fileid := ScanUInt64(v, a.fileid), mask := a.mask + {FileIdBit})
      case Mode => a.(mode := ScanIntInto(v, a.mode), mask := a.mask + {ModeBit})
      case NumLinks => a.(numlinks := ScanUInt32(v, a.numlinks), mask := a.mask + {NumLinksBit})
      case Owner => a.(owner := ScanUInt64(v, a.owner), mask := a.mask + {OwnerBit})
      case Group => a.(group := ScanUInt64(v, a.group), mask := a.mask + {GroupBit})
      case ATime => a.(atime := ScanTime(v, a.atime), mask := a.mask + {ATimeBit})
      case CTime => a.(ctime := ScanTime(v, a.ctime), mask := a.mask + {CTimeBit})
      case ChgTime => a.(chgtime := ScanTime(v, a.chgtime), mask := a.mask + {MTimeBit})
      case MTime => a.(mtime := ScanTime(v, a.mtime), mask := a.mask + {MTimeBit})
      case SpaceUsed => a
  }

  /** The locals of _fill_attrlist: a name that does not scan leaves the previous index in `mindex`. */
  datatype FillState = FillState(mindex: int, attrs: AttrList, objectType: ObjectType)

  function ScannedIndex(name: string, previous: int): int {
    match ScanInt(name)
    case NoMatch => previous
    case Match(k, _) => k
  }

  function Fill(s: seq<Entry>, a: AttrList, t: ObjectType): FillState {
    if s == [] then FillState(0, a, t)
    else
      var f := Fill(s[..|s| - 1], a, t);
      var e := s[|s| - 1];
      var k := ScannedIndex(e.name, f.mindex);
      var attrs := FillEntry(k, e.value, f.attrs);
      FillState(k, attrs, if k == FileType.Index() then attrs.objectType else f.objectType)
  }

  /** _fill_attrlist, for entries in whatever order they come. */
  method FillAttrlist(metadata: array<Entry>, h: ObjHandle)
    requires metadata.Length == METADATACOUNT
    modifies h`attributes, h`objectType
    ensures var f := Fill(metadata[..], old(h.attributes), old(h.objectType));
      h.attributes == f.attrs && h.objectType == f.objectType
  {
    hide FillEntry, ScannedIndex;
    var mindex := 0;
    var i := 0;
    while i < METADATACOUNT
      invariant 0 <= i <= METADATACOUNT
      invariant Fill(metadata[..i], old(h.attributes), old(h.objectType))
        == FillState(mindex, h.attributes, h.objectType)
    {
      var e := metadata[i];
      assert metadata[..i + 1] == metadata[..i] + [e];
      mindex := ScannedIndex(e.name, mindex);
      h.attributes := FillEntry(mindex, e.value, h.attributes);
      if mindex == FileType.Index() {
        h.objectType := h.attributes.objectType;
      }
      i := i + 1;
    }
    assert metadata[..i] == metadata[..];
  }
}
