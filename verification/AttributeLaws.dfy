/** What the attribute codec promises: decoding does not depend on the order of the entries, encoding
    and decoding undo each other under the mask, and repeated encodings are one encoding. */
module AttributeLaws {
  import opened Decimal
  import opened CloudStructures
  import opened Attributes

  // ----- the meaning of a dictionary -----

  function FieldUInt64(f: Option<string>, previous: UInt64): UInt64 {
    if f.Some? then ScanUInt64(f.value, previous) else previous
  }

  function FieldTime(f: Option<string>, previous: Time): Time {
    if f.Some? then ScanTime(f.value, previous) else previous
  }

  /** The bits that reading entry `m` switches on.  CHGTIME reports itself as MTIME. */
  function Bits(m: MetaName): set<Bit> {
    match m
    case FileType => {TypeBit}
    case FileSize => {SizeBit, SpaceUsedBit}
    case FsId => {FsIdBit}
    case FileId => {FileIdBit}
    case Mode => {ModeBit}
    case NumLinks => {NumLinksBit}
    case Owner => {OwnerBit}
    case Group => {GroupBit}
    case ATime => {ATimeBit}
    case CTime => {CTimeBit}
    case ChgTime => {MTimeBit}
    case MTime => {MTimeBit}
    case SpaceUsed => {}
  }

  ghost function BitsOf(d: Dict): set<Bit> {
    set m: MetaName, b: Bit | Field(d, m).Some? && b in Bits(m) :: b
  }

  /** All attributes at once, read off the map.  The space used is the file size. */
  ghost function Decode(d: Dict, a: AttrList): AttrList {
    var size := FieldUInt64(Field(d, FileSize), a.filesize);
    AttrList(
      a.mask + BitsOf(d),
      if Field(d, FileType).Some? then DecodedType(Field(d, FileType).value) else a.objectType,
      size,
      if Field(d, FsId).Some? then FileSystemId(0, 0) else a.fsid,
      FieldUInt64(Field(d, FileId), a.fileid),
      if Field(d, Mode).Some? then ScanIntInto(Field(d, Mode).value, a.mode) else a.mode,
      if Field(d, NumLinks).Some? then ScanUInt32(Field(d, NumLinks).value, a.numlinks) else a.numlinks,
      FieldUInt64(Field(d, Owner), a.owner),
      FieldUInt64(Field(d, Group), a.group),
      FieldTime(Field(d, ATime), a.atime),
      FieldTime(Field(d, CTime), a.ctime),
      FieldTime(Field(d, ChgTime), a.chgtime),
      FieldTime(Field(d, MTime), a.mtime),
      if Field(d, FileSize).Some? then size else a.spaceused)
  }

  /** The handle's own type field follows the type attribute once that entry has been read. */
  ghost function DecodeType(d: Dict, a: AttrList, t: ObjectType): ObjectType {
    if Field(d, FileType).Some? then Decode(d, a).objectType else t
  }

  lemma BitsOfUpdate(d: Dict, m: MetaName, v: string)
    ensures BitsOf(d[m.Text() := v]) == BitsOf(d) + Bits(m)
  {
  }

  /** Each round of the switch assigns the fields of its own entry and keeps the others. */
  lemma RoundOfNumbers(m: MetaName, v: string, a: AttrList)
    ensures var r := FillEntry(m.Index(), v, a);
      && r.filesize == (if m == FileSize then ScanUInt64(v, a.filesize) else a.filesize)
      && r.spaceused == (if m == FileSize then ScanUInt64(v, a.filesize) else a.spaceused)
      && r.fileid == (if m == FileId then ScanUInt64(v, a.fileid) else a.fileid)
      && r.owner == (if m == Owner then ScanUInt64(v, a.owner) else a.owner)
      && r.group == (if m == Group then ScanUInt64(v, a.group) else a.group)
  {
    hide ScanUInt64, ScanUInt32, ScanIntInto, ScanTime, DecodedType;
  }

  lemma RoundOfTimes(m: MetaName, v: string, a: AttrList)
    ensures var r := FillEntry(m.Index(), v, a);
      && r.atime == (if m == ATime then ScanTime(v, a.atime) else a.atime)
      && r.ctime == (if m == CTime then ScanTime(v, a.ctime) else a.ctime)
      && r.chgtime == (if m == ChgTime then ScanTime(v, a.chgtime) else a.chgtime)
      && r.mtime == (if m == MTime then ScanTime(v, a.mtime) else a.mtime)
  {
    hide ScanUInt64, ScanUInt32, ScanIntInto, ScanTime, DecodedType;
  }

  lemma RoundOfOthers(m: MetaName, v: string, a: AttrList)
    ensures var r := FillEntry(m.Index(), v, a);
      && r.objectType == (if m == FileType then DecodedType(v) else a.objectType)
      && r.fsid == (if m == FsId then FileSystemId(0, 0) else a.fsid)
      && r.mode == (if m == Mode then ScanIntInto(v, a.mode) else a.mode)
      && r.numlinks == (if m == NumLinks then ScanUInt32(v, a.numlinks) else a.numlinks)
  {
    hide ScanUInt64, ScanUInt32, ScanIntInto, ScanTime, DecodedType;
  }

  lemma RoundOfMask(m: MetaName, v: string, a: AttrList)
    ensures FillEntry(m.Index(), v, a).mask == a.mask + Bits(m)
  {
    hide ScanUInt64, ScanUInt32, ScanIntInto, ScanTime, DecodedType;
  }

  lemma UpdateNumbers(d: Dict, m: MetaName, v: string, a: AttrList)
    requires Field(d, m) == None
    ensures var (l, r) := (Decode(d[m.Text() := v], a), FillEntry(m.Index(), v, Decode(d, a)));
      && l.filesize == r.filesize && l.spaceused == r.spaceused && l.fileid == r.fileid
      && l.owner == r.owner && l.group == r.group
  {
    hide ScanUInt64, ScanUInt32, ScanIntInto, ScanTime, DecodedType, MetaName.Text, MetaName.Index;
    hide BitsOf, Field, FillEntry;
    RoundOfNumbers(m, v, Decode(d, a));
    FieldUpdateAt(d, m, v, FileSize);
    FieldUpdateAt(d, m, v, FileId);
    FieldUpdateAt(d, m, v, Owner);
    FieldUpdateAt(d, m, v, Group);
  }

  lemma UpdateTimes(d: Dict, m: MetaName, v: string, a: AttrList)
    requires Field(d, m) == None
    ensures var (l, r) := (Decode(d[m.Text() := v], a), FillEntry(m.Index(), v, Decode(d, a)));
      && l.atime == r.atime && l.ctime == r.ctime && l.chgtime == r.chgtime && l.mtime == r.mtime
  {
    hide ScanUInt64, ScanUInt32, ScanIntInto, ScanTime, DecodedType, MetaName.Text, MetaName.Index;
    hide BitsOf, Field, FillEntry;
    RoundOfTimes(m, v, Decode(d, a));
    FieldUpdateAt(d, m, v, ATime);
    FieldUpdateAt(d, m, v, CTime);
    FieldUpdateAt(d, m, v, ChgTime);
    FieldUpdateAt(d, m, v, MTime);
  }

  lemma UpdateOthers(d: Dict, m: MetaName, v: string, a: AttrList)
    requires Field(d, m) == None
    ensures var (l, r) := (Decode(d[m.Text() := v], a), FillEntry(m.Index(), v, Decode(d, a)));
      && l.objectType == r.objectType && l.fsid == r.fsid && l.mode == r.mode && l.numlinks == r.numlinks
  {
    hide ScanUInt64, ScanUInt32, ScanIntInto, ScanTime, DecodedType, MetaName.Text, MetaName.Index;
    hide BitsOf, Field, FillEntry;
    RoundOfOthers(m, v, Decode(d, a));
    FieldUpdateAt(d, m, v, FileType);
    FieldUpdateAt(d, m, v, FsId);
    FieldUpdateAt(d, m, v, Mode);
    FieldUpdateAt(d, m, v, NumLinks);
  }

  lemma UpdateMask(d: Dict, m: MetaName, v: string, a: AttrList)
    ensures Decode(d[m.Text() := v], a).mask == FillEntry(m.Index(), v, Decode(d, a)).mask
  {
    hide ScanUInt64, ScanUInt32, ScanIntInto, ScanTime, DecodedType, MetaName.Text, MetaName.Index;
    hide BitsOf, Field, FillEntry;
    RoundOfMask(m, v, Decode(d, a));
    BitsOfUpdate(d, m, v);
    assert a.mask + (BitsOf(d) + Bits(m)) == a.mask + BitsOf(d) + Bits(m);
  }

  /** Reading one more entry is one round of the switch. */
  lemma DecodeUpdate(d: Dict, m: MetaName, v: string, a: AttrList)
    requires Field(d, m) == None
    ensures Decode(d[m.Text() := v], a) == FillEntry(m.Index(), v, Decode(d, a))
  {
    hide Decode, FillEntry;
    UpdateNumbers(d, m, v, a);
    UpdateTimes(d, m, v, a);
    UpdateOthers(d, m, v, a);
    UpdateMask(d, m, v, a);
  }

  /** Every name is the decimal text of one of the 13 entries. */
  ghost predicate CanonicalNames(s: seq<Entry>) {
    forall i :: 0 <= i < |s| ==> MetaOf(s[i].name).Some?
  }

  /** Whatever the order of the entries, the loop of _fill_attrlist computes the decoded map. */
  lemma {:induction false} FillDecodes(s: seq<Entry>, a: AttrList, t: ObjectType)
    requires DistinctNames(s) && CanonicalNames(s)
    ensures Fill(s, a, t).attrs == Decode(DictOf(s), a)
    ensures Fill(s, a, t).objectType == DecodeType(DictOf(s), a, t)
  {
    hide FillEntry, Decode, DictOf, MetaName.Text;
    if s == [] {
      DecodeNothing(a);
    } else {
      var init, e := s[..|s| - 1], s[|s| - 1];
      assert s == init + [e];
      FillDecodes(init, a, t);
      DictOfSnoc(init, e);
      var m := MetaOf(e.name).value;
      MetaOfText(m);
      assert Field(DictOf(init), m) == None;
      DecodeUpdate(DictOf(init), m, e.value, a);
      FieldUpdate(DictOf(init), m, e.value);
      if m != FileType {
        DecodeTypeKept(DictOf(init), m, e.value, a);
      }
      if m.Index() == FileType.Index() {
        IndexInjective(m, FileType);
      }
    }
  }

  lemma DecodeNothing(a: AttrList)
    ensures DictOf([]) == map[]
    ensures Decode(map[], a) == a
  {
  }

  lemma DecodeTypeKept(d: Dict, m: MetaName, v: string, a: AttrList)
    requires m != FileType
    ensures Decode(d[m.Text() := v], a).objectType == Decode(d, a).objectType
  {
  }

  /** The entries of a complete dictionary, in any order, fill in all attributes and the type. */
  lemma FillListed(s: seq<Entry>, d: Dict, a: AttrList, t: ObjectType)
    requires Lists(s, d) && WellFormed(d)
    ensures Fill(s, a, t).attrs == Decode(d, a)
    ensures Fill(s, a, t).objectType == Decode(d, a).objectType
  {
    hide Fill, Decode;
    forall i | 0 <= i < |s|
      ensures MetaOf(s[i].name).Some?
    {
      DictOfLookup(s, i);
      AllNamesHaveMeta();
    }
    FillDecodes(s, a, t);
    var m := FileType;
    assert m.Text() in AllNames();
  }

  /** The order in which a store returns the metadata of an object cannot be observed. */
  lemma OrderCannotBeObserved(s: seq<Entry>, s': seq<Entry>, a: AttrList, t: ObjectType)
    requires DistinctNames(s) && CanonicalNames(s)
    requires multiset(s) == multiset(s')
    ensures Fill(s, a, t).attrs == Fill(s', a, t).attrs
    ensures Fill(s, a, t).objectType == Fill(s', a, t).objectType
  {
    PermutedNames(s, s');
    OrderInsensitive(s, s');
    FillDecodes(s, a, t);
    FillDecodes(s', a, t);
  }

  lemma PermutedNames(s: seq<Entry>, s': seq<Entry>)
    requires DistinctNames(s) && CanonicalNames(s)
    requires multiset(s) == multiset(s')
    ensures DistinctNames(s') && CanonicalNames(s')
  {
    forall i | 0 <= i < |s'|
      ensures s'[i] in s
    {
      assert s'[i] in multiset(s);
    }
    forall i, j | 0 <= i < j < |s'|
      ensures s'[i].name != s'[j].name
    {
      if s'[i].name == s'[j].name {
        var k :| 0 <= k < |s| && s[k] == s'[i];
        var l :| 0 <= l < |s| && s[l] == s'[j];
        assert k == l;
        SamePairTwice(s', i, j);
        assert multiset(s)[s[k]] >= 2;
        TwoPositions(s, s[k]);
        assert false;
      }
    }
  }

  lemma SamePairTwice(s: seq<Entry>, i: nat, j: nat)
    requires i < j < |s| && s[i] == s[j]
    ensures multiset(s)[s[i]] >= 2
  {
    assert s == s[..j] + s[j..];
    assert s[i] in s[..j] && s[j] in s[j..];
    assert multiset(s) == multiset(s[..j]) + multiset(s[j..]);
  }

  lemma TwoPositions(s: seq<Entry>, e: Entry)
    requires multiset(s)[e] >= 2
    ensures exists k, l :: 0 <= k < l < |s| && s[k] == e == s[l]
  {
    var k :| 0 <= k < |s| && s[k] == e;
    assert s == s[..k] + [e] + s[k + 1..];
    assert multiset(s) == multiset(s[..k]) + multiset{e} + multiset(s[k + 1..]);
    assert e in multiset(s[..k]) || e in multiset(s[k + 1..]);
    if e in s[..k] {
      var l :| 0 <= l < k && s[..k][l] == e;
      assert s[l] == e == s[k];
    } else {
      assert e in s[k + 1..];
      var l :| 0 <= l < |s[k + 1..]| && s[k + 1..][l] == e;
      assert s[k] == e == s[k + 1 + l];
    }
  }

  /** An entry whose name does not scan is read as if it had the name of the entry before it. */
  lemma UnreadableName(s: seq<Entry>, e: Entry, name: string, v: string, a: AttrList, t: ObjectType)
    requires ScanInt(name) == NoMatch && ScanInt(e.name).Match?
    ensures Fill(s + [e] + [Entry(name, v)], a, t) == Fill(s + [e] + [Entry(e.name, v)], a, t)
  {
    hide ScanInt, FillEntry;
    var u := s + [e];
    assert (u + [Entry(name, v)])[..|u|] == u && (u + [Entry(e.name, v)])[..|u|] == u;
    assert u[..|s|] == s;
  }

  /** An index that is not one of the 13 changes nothing. */
  lemma UnknownIndex(k: int, v: string, a: AttrList)
    requires k < 0 || k > 12
    ensures FillEntry(k, v, a) == a
  {
  }

  // ----- decoding in full -----

  ghost predicate NumbersRead(d: Dict, a: AttrList, r: AttrList)
    requires WellFormed(d)
  {
    NamesInFull();
    && r.filesize == r.spaceused == ScanUInt64(d["1"], a.filesize)
    && r.fileid == ScanUInt64(d["3"], a.fileid)
    && r.mode == ScanIntInto(d["4"], a.mode)
    && r.numlinks == ScanUInt32(d["5"], a.numlinks)
    && r.owner == ScanUInt64(d["6"], a.owner)
    && r.group == ScanUInt64(d["7"], a.group)
  }

  ghost predicate TimesRead(d: Dict, a: AttrList, r: AttrList)
    requires WellFormed(d)
  {
    NamesInFull();
    && r.atime == ScanTime(d["8"], a.atime)
    && r.ctime == ScanTime(d["9"], a.ctime)
    && r.chgtime == ScanTime(d["10"], a.chgtime)
    && r.mtime == ScanTime(d["11"], a.mtime)
  }

  /** What _fill_attrlist reads from a complete dictionary, name by name: the type is DIRECTORY exactly
      for the text "1", the file-system id is zero, and entry "12" is not read. */
  ghost predicate EntriesRead(d: Dict, a: AttrList, r: AttrList)
    requires WellFormed(d)
  {
    NamesInFull();
    && r.objectType == (if d["0"] == "1" then Directory else RegularFile)
    && r.fsid == FileSystemId(0, 0)
    && r.mask == a.mask + {TypeBit, SizeBit, SpaceUsedBit, FsIdBit, FileIdBit, ModeBit, NumLinksBit, OwnerBit,
                           GroupBit, ATimeBit, CTimeBit, MTimeBit}
    && NumbersRead(d, a, r) && TimesRead(d, a, r)
  }

  lemma FieldInFull(d: Dict, m: MetaName, n: string)
    requires WellFormed(d) && m.Text() == n
    ensures n in d && Field(d, m) == Some(d[n])
  {
    hide MetaName.Text;
    assert m.Text() in AllNames();
  }

  lemma DecodeReadsNumbers(d: Dict, a: AttrList)
    requires WellFormed(d)
    ensures NumbersRead(d, a, Decode(d, a))
  {
    hide ScanUInt64, ScanUInt32, ScanIntInto, ScanTime, DecodedType, BitsOf, Field;
    FieldInFull(d, FileSize, "1");
    FieldInFull(d, FileId, "3");
    FieldInFull(d, Mode, "4");
    FieldInFull(d, NumLinks, "5");
    FieldInFull(d, Owner, "6");
    FieldInFull(d, Group, "7");
  }

  lemma DecodeReadsTimes(d: Dict, a: AttrList)
    requires WellFormed(d)
    ensures TimesRead(d, a, Decode(d, a))
  {
    hide ScanUInt64, ScanUInt32, ScanIntInto, ScanTime, DecodedType, BitsOf, Field;
    FieldInFull(d, ATime, "8");
    FieldInFull(d, CTime, "9");
    FieldInFull(d, ChgTime, "10");
    FieldInFull(d, MTime, "11");
  }

  lemma DecodeReads(d: Dict, a: AttrList)
    requires WellFormed(d)
    ensures EntriesRead(d, a, Decode(d, a))
  {
    hide ScanUInt64, ScanUInt32, ScanIntInto, ScanTime, BitsOf, Field, NumbersRead, TimesRead;
    TypeTexts();
    FieldInFull(d, FileType, "0");
    FieldInFull(d, FsId, "2");
    WellFormedBits(d);
    DecodeReadsNumbers(d, a);
    DecodeReadsTimes(d, a);
  }

  // ----- encoding and decoding -----

  /** `base` with the fields that the mask of `a` selects.  The mask of `base` stays, the space used
      follows the size, and the link count and file-system id cannot be set. */
  function Overlay(base: AttrList, a: AttrList): AttrList {
    base.(
      objectType := if TypeBit in a.mask then a.objectType else base.objectType,
      filesize := if SizeBit in a.mask then a.filesize else base.filesize,
      spaceused := if SizeBit in a.mask then a.filesize else base.spaceused,
      fileid := if FileIdBit in a.mask then a.fileid else base.fileid,
      mode := if ModeBit in a.mask then a.mode else base.mode,
      owner := if OwnerBit in a.mask then a.owner else base.owner,
      group := if GroupBit in a.mask then a.group else base.group,
      atime := if ATimeBit in a.mask then a.atime else base.atime,
      ctime := if CTimeBit in a.mask then a.ctime else base.ctime,
      chgtime := if ChgTimeBit in a.mask then a.chgtime else base.chgtime,
      mtime := if MTimeBit in a.mask then a.mtime else base.mtime)
  }

  /** Modes are printed with "%u" and read with "%d". */
  predicate ModeReadable(a: AttrList) {
    ModeBit in a.mask ==> a.mode < 0x8000_0000
  }

  lemma RefilledBits(a: AttrList, d: Dict)
    ensures BitsOf(Refill(a, d)) == BitsOf(d)
  {
  }

  lemma RefilledUInt64(a: AttrList, d: Dict, m: MetaName, wanted: bool, n: UInt64, previous: UInt64)
    requires m.Text() in d && Encoded(a, m) == if wanted then Some(PrintNat(n)) else None
    ensures FieldUInt64(Field(Refill(a, d), m), previous) == if wanted then n else FieldUInt64(Field(d, m), previous)
  {
    hide PrintNat, ScanUInt64, Encoded, Refill;
    FieldRefill(a, d, m);
    ScanPrintUInt64(n, previous);
  }

  lemma RefilledTime(a: AttrList, d: Dict, m: MetaName, wanted: bool, t: Time, previous: Time)
    requires m.Text() in d && Encoded(a, m) == if wanted then Some(PrintTime(t)) else None
    ensures FieldTime(Field(Refill(a, d), m), previous) == if wanted then t else FieldTime(Field(d, m), previous)
  {
    hide PrintTime, ScanTime, Encoded, Refill;
    FieldRefill(a, d, m);
    ScanPrintTime(t, previous);
  }

  lemma RefilledType(a: AttrList, d: Dict, previous: AttrList)
    requires WellFormed(d) && Supported(a)
    ensures Decode(Refill(a, d), previous).objectType ==
      if TypeBit in a.mask then a.objectType else Decode(d, previous).objectType
  {
    hide Refill, ScanUInt64, ScanUInt32, ScanIntInto, ScanTime, BitsOf;
    var m := FileType;
    assert m.Text() in AllNames();
    FieldRefill(a, d, m);
    assert RegularFileT.Text() == "0" && DirectoryT.Text() == "1";
  }

  lemma RefilledMode(a: AttrList, d: Dict, previous: AttrList)
    requires WellFormed(d) && ModeReadable(a)
    ensures Decode(Refill(a, d), previous).mode == if ModeBit in a.mask then a.mode else Decode(d, previous).mode
  {
    hide Refill, PrintNat, ScanUInt64, ScanUInt32, ScanIntInto, ScanTime, BitsOf;
    var m := Mode;
    assert m.Text() in AllNames();
    FieldRefill(a, d, m);
    if ModeBit in a.mask {
      ScanPrintIntInto(a.mode, previous.mode);
    }
  }

  lemma RefilledUntouched(a: AttrList, d: Dict, previous: AttrList)
    requires WellFormed(d)
    ensures Decode(Refill(a, d), previous).numlinks == Decode(d, previous).numlinks
    ensures Decode(Refill(a, d), previous).fsid == Decode(d, previous).fsid
    ensures Decode(Refill(a, d), previous).mask == Decode(d, previous).mask
  {
    hide Refill, PrintNat, ScanUInt64, ScanUInt32, ScanIntInto, ScanTime, BitsOf;
    RefilledBits(a, d);
    FieldRefill(a, d, FsId);
    FieldRefill(a, d, NumLinks);
  }

  lemma RefilledNumbers(a: AttrList, d: Dict, previous: AttrList)
    requires WellFormed(d)
    ensures Decode(Refill(a, d), previous).filesize ==
      if SizeBit in a.mask then a.filesize else Decode(d, previous).filesize
    ensures Decode(Refill(a, d), previous).spaceused == Decode(Refill(a, d), previous).filesize
    ensures Decode(d, previous).spaceused == Decode(d, previous).filesize
    ensures Decode(Refill(a, d), previous).fileid ==
      if FileIdBit in a.mask then a.fileid else Decode(d, previous).fileid
    ensures Decode(Refill(a, d), previous).owner == if OwnerBit in a.mask then a.owner else Decode(d, previous).owner
    ensures Decode(Refill(a, d), previous).group == if GroupBit in a.mask then a.group else Decode(d, previous).group
  {
    hide Refill, PrintNat, ScanUInt64, ScanUInt32, ScanIntInto, ScanTime, BitsOf, MetaName.Text;
    assert forall m: MetaName :: m.Text() in AllNames();
    FieldRefill(a, d, FileSize);
    assert Field(Refill(a, d), FileSize).Some? && Field(d, FileSize).Some?;
    RefilledUInt64(a, d, FileSize, SizeBit in a.mask, a.filesize, previous.filesize);
    RefilledUInt64(a, d, FileId, FileIdBit in a.mask, a.fileid, previous.fileid);
    RefilledUInt64(a, d, Owner, OwnerBit in a.mask, a.owner, previous.owner);
    RefilledUInt64(a, d, Group, GroupBit in a.mask, a.group, previous.group);
  }

  lemma RefilledTimes(a: AttrList, d: Dict, previous: AttrList)
    requires WellFormed(d)
    ensures Decode(Refill(a, d), previous).atime == if ATimeBit in a.mask then a.atime else Decode(d, previous).atime
    ensures Decode(Refill(a, d), previous).ctime == if CTimeBit in a.mask then a.ctime else Decode(d, previous).ctime
    ensures Decode(Refill(a, d), previous).chgtime ==
      if ChgTimeBit in a.mask then a.chgtime else Decode(d, previous).chgtime
    ensures Decode(Refill(a, d), previous).mtime == if MTimeBit in a.mask then a.mtime else Decode(d, previous).mtime
  {
    hide Refill, PrintTime, ScanUInt64, ScanUInt32, ScanIntInto, ScanTime, BitsOf, MetaName.Text;
    assert forall m: MetaName :: m.Text() in AllNames();
    RefilledTime(a, d, ATime, ATimeBit in a.mask, a.atime, previous.atime);
    RefilledTime(a, d, CTime, CTimeBit in a.mask, a.ctime, previous.ctime);
    RefilledTime(a, d, ChgTime, ChgTimeBit in a.mask, a.chgtime, previous.chgtime);
    RefilledTime(a, d, MTime, MTimeBit in a.mask, a.mtime, previous.mtime);
  }

  /** Encoding under a mask and decoding again gives the masked fields from the list and all other
      fields from the dictionary, for every dictionary with the 13 entries.  A masked mode has to fit
      an int: C does not say what scanning a larger one with "%d" stores. */
  lemma AttributeRoundTrip(a: AttrList, d: Dict, previous: AttrList)
    requires WellFormed(d) && Supported(a)
    ensures ModeReadable(a) ==> Decode(Refill(a, d), previous) == Overlay(Decode(d, previous), a)
  {
    hide Decode, Refill;
    if ModeReadable(a) {
      RefilledUntouched(a, d, previous);
      RefilledType(a, d, previous);
      RefilledMode(a, d, previous);
      RefilledNumbers(a, d, previous);
      RefilledTimes(a, d, previous);
    }
  }

  // ----- well-formed and readable dictionaries -----

  /** The mask after decoding any complete dictionary: CHGTIME is never in it. */
  const FULL_MASK: set<Bit> :=
    {TypeBit, SizeBit, SpaceUsedBit, FsIdBit, FileIdBit, ModeBit, NumLinksBit, OwnerBit, GroupBit,
     ATimeBit, CTimeBit, MTimeBit}

  lemma WellFormedBits(d: Dict)
    requires WellFormed(d)
    ensures BitsOf(d) == FULL_MASK
  {
    hide MetaName.Text;
    assert forall m: MetaName :: m.Text() in AllNames() && Field(d, m).Some?;
    forall b: Bit
      ensures b in BitsOf(d) <==> b in FULL_MASK
    {
      BitHasEntry(d, b);
    }
  }

  lemma BitHasEntry(d: Dict, b: Bit)
    requires forall m: MetaName :: Field(d, m).Some?
    ensures b in BitsOf(d) <==> b != ChgTimeBit
  {
    hide Field;
    var m := match b
      case TypeBit => FileType
      case SizeBit => FileSize
      case FsIdBit => FsId
      case FileIdBit => FileId
      case ModeBit => Mode
      case NumLinksBit => NumLinks
      case OwnerBit => Owner
      case GroupBit => Group
      case ATimeBit => ATime
      case CTimeBit => CTime
      case ChgTimeBit => ChgTime
      case MTimeBit => MTime
      case SpaceUsedBit => FileSize;
    assert b == ChgTimeBit || b in Bits(m);
    assert Field(d, m).Some?;
  }

  lemma RefillWellFormed(a: AttrList, d: Dict)
    requires WellFormed(d)
    ensures WellFormed(Refill(a, d))
  {
  }

  /** Every text in the dictionary scans, so decoding does not depend on what was there before. */
  ghost predicate Readable(d: Dict) {
    && WellFormed(d)
    && forall previous: AttrList :: Decode(d, previous) == Decode(d, ZERO_ATTRS).(mask := previous.mask + FULL_MASK)
  }

  lemma RefillReadable(a: AttrList, d: Dict)
    requires Readable(d) && Supported(a) && ModeReadable(a)
    ensures Readable(Refill(a, d))
    ensures Decode(Refill(a, d), ZERO_ATTRS) == Overlay(Decode(d, ZERO_ATTRS), a)
  {
    RefillWellFormed(a, d);
    hide Decode, Refill, WellFormed;
    AttributeRoundTrip(a, d, ZERO_ATTRS);
    forall previous: AttrList
      ensures Decode(Refill(a, d), previous) == Decode(Refill(a, d), ZERO_ATTRS).(mask := previous.mask + FULL_MASK)
    {
      AttributeRoundTrip(a, d, previous);
      assert Decode(d, previous) == Decode(d, ZERO_ATTRS).(mask := previous.mask + FULL_MASK);
    }
  }

  /** The attributes of a new object before any list is laid over them. */
  function DefaultAttrs(t: FileTypeValue, now: Time): AttrList {
    AttrList(FULL_MASK, if t == DirectoryT then Directory else RegularFile, 0, FileSystemId(0, 0), 0,
             493, 2, 1000, 1000, now, now, now, now, 0)
  }

  lemma ScanLiteral(text: string, n: nat)
    requires text == PrintNat(n) && n < 0x8000_0000
    ensures forall u: UInt64 :: ScanUInt64(text, u) == n
    ensures forall u: UInt32 :: ScanUInt32(text, u) == n && ScanIntInto(text, u) == n
  {
    forall u: UInt64 ensures ScanUInt64(text, u) == n { ScanPrintUInt64(n, u); }
    forall u: UInt32 ensures ScanUInt32(text, u) == n && ScanIntInto(text, u) == n {
      ScanPrintUInt32(n, u);
      ScanPrintIntInto(n, u);
    }
  }

  /** The decimal text one digit at a time. */
  lemma NextDigit(n: nat, tens: nat, ones: nat)
    requires n == 10 * tens + ones && ones < 10 && tens > 0
    ensures PrintNat(n) == PrintNat(tens) + [DigitChar(ones)]
  {
    TensAndOnes(n);
  }

  lemma SmallTexts()
    ensures PrintNat(0) == "0" && PrintNat(2) == "2"
  {
  }

  lemma DefaultModeText(n: nat)
    requires n == 493
    ensures PrintNat(n) == "493"
  {
    NextDigit(n, 49, 3);
    NextDigit(49, 4, 9);
  }

  lemma DefaultOwnerText(n: nat)
    requires n == 1000
    ensures PrintNat(n) == "1000"
  {
    NextDigit(n, 100, 0);
    NextDigit(100, 10, 0);
    NextDigit(10, 1, 0);
  }

  /** The FILEID text of a new object is its own oid.  As every oid starts with "0/", every object
      reads back the same file id 0: it does not identify anything. */
  lemma OidReadsAsZero(oid: string, previous: UInt64)
    requires "0/" <= oid
    ensures ScanUInt64(oid, previous) == 0
  {
    ScanUnsignedText(0, oid[1..]);
    assert oid == "0" + oid[1..];
  }

  lemma DefaultFields(t: FileTypeValue, fileId: string, nowText: string, m: MetaName)
    ensures Field(Defaults(t, fileId, nowText), m) == Some(DefaultValue(m, t, fileId, nowText))
  {
    hide MetaName.Text, DefaultValue;
    AllNamesHaveMeta();
  }

  lemma DefaultTypes(t: FileTypeValue)
    ensures DecodedType(t.Text()) == if t == DirectoryT then Directory else RegularFile
  {
  }

  lemma DefaultsDecode(t: FileTypeValue, fileId: string, now: Time, previous: AttrList)
    requires "0/" <= fileId
    ensures Decode(Defaults(t, fileId, PrintTime(now)), previous)
      == DefaultAttrs(t, now).(mask := previous.mask + FULL_MASK)
  {
    hide Defaults, PrintTime, ScanUInt64, ScanUInt32, ScanIntInto, ScanTime, BitsOf, PrintNat, ZERO_ATTRS;
    var d := Defaults(t, fileId, PrintTime(now));
    WellFormedBits(d);
    forall m: MetaName
      ensures Field(d, m) == Some(DefaultValue(m, t, fileId, PrintTime(now)))
    {
      DefaultFields(t, fileId, PrintTime(now), m);
    }
    hide Field, FileTypeValue.Text;
    DefaultTypes(t);
    DefaultModeText(493);
    DefaultOwnerText(1000);
    SmallTexts();
    ScanLiteral("0", 0);
    ScanLiteral("2", 2);
    ScanLiteral("493", 493);
    ScanLiteral("1000", 1000);
    OidReadsAsZero(fileId, previous.fileid);
    ScanPrintTime(now, previous.atime);
    ScanPrintTime(now, previous.ctime);
    ScanPrintTime(now, previous.chgtime);
    ScanPrintTime(now, previous.mtime);
  }

  lemma DefaultsReadable(t: FileTypeValue, fileId: string, now: Time)
    requires "0/" <= fileId
    ensures Readable(Defaults(t, fileId, PrintTime(now)))
    ensures Decode(Defaults(t, fileId, PrintTime(now)), ZERO_ATTRS) == DefaultAttrs(t, now)
  {
    hide Decode, PrintTime;
    forall previous: AttrList
      ensures Decode(Defaults(t, fileId, PrintTime(now)), previous)
      == DefaultAttrs(t, now).(mask := previous.mask + FULL_MASK)
    {
      DefaultsDecode(t, fileId, now, previous);
    }
    assert ZERO_ATTRS.mask + FULL_MASK == FULL_MASK;
  }

  // ----- new objects in full -----

  /** The dictionary of an object made under this oid, name by name and text by text. */
  ghost predicate NewEntries(d: Dict, oid: string, a: AttrList, now: Time) {
    && d.Keys == {"0", "1", "2", "3", "4", "5", "6", "7", "8", "9", "10", "11", "12"}
    && d["0"] == (if TypeBit in a.mask && a.objectType == RegularFile then "0" else "1")
    && d["1"] == (if SizeBit in a.mask then PrintNat(a.filesize) else "0")
    && d["2"] == "0"
    && d["3"] == (if FileIdBit in a.mask then PrintNat(a.fileid) else oid)
    && d["4"] == (if ModeBit in a.mask then PrintNat(a.mode) else "493")
    && d["5"] == "2"
    && d["6"] == (if OwnerBit in a.mask then PrintNat(a.owner) else "1000")
    && d["7"] == (if GroupBit in a.mask then PrintNat(a.group) else "1000")
    && d["8"] == PrintTime(if ATimeBit in a.mask then a.atime else now)
    && d["9"] == PrintTime(if CTimeBit in a.mask then a.ctime else now)
    && d["10"] == PrintTime(if ChgTimeBit in a.mask then a.chgtime else now)
    && d["11"] == PrintTime(if MTimeBit in a.mask then a.mtime else now)
    && d["12"] == (if SpaceUsedBit in a.mask then PrintNat(a.spaceused) else "0")
  }

  lemma NewInFull(oid: string, a: AttrList, now: Time)
    ensures NewEntries(Refill(a, Defaults(DirectoryT, oid, PrintTime(now))), oid, a, now)
  {
    hide Defaults, Refill, PrintNat, PrintTime;
    DefaultsInFull(DirectoryT, oid, PrintTime(now));
    RefillWrites(a, Defaults(DirectoryT, oid, PrintTime(now)));
  }

  // ----- repeated encodings -----

  /** One list that does what `a` followed by `b` does: masks united, later values winning. */
  function Merge(a: AttrList, b: AttrList): AttrList {
    AttrList(
      a.mask + b.mask,
      if TypeBit in b.mask then b.objectType else a.objectType,
      if SizeBit in b.mask then b.filesize else a.filesize,
      a.fsid,
      if FileIdBit in b.mask then b.fileid else a.fileid,
      if ModeBit in b.mask then b.mode else a.mode,
      a.numlinks,
      if OwnerBit in b.mask then b.owner else a.owner,
      if GroupBit in b.mask then b.group else a.group,
      if ATimeBit in b.mask then b.atime else a.atime,
      if CTimeBit in b.mask then b.ctime else a.ctime,
      if ChgTimeBit in b.mask then b.chgtime else a.chgtime,
      if MTimeBit in b.mask then b.mtime else a.mtime,
      if SpaceUsedBit in b.mask then b.spaceused else a.spaceused)
  }

  lemma MergedText(a: AttrList, b: AttrList, m: MetaName)
    ensures Encoded(Merge(a, b), m) == if Encoded(b, m).Some? then Encoded(b, m) else Encoded(a, m)
  {
    hide PrintNat, PrintTime, TypeText;
    match m
    case FileType =>
    case FileSize =>
    case FsId =>
    case FileId =>
    case Mode =>
    case NumLinks =>
    case Owner =>
    case Group =>
    case ATime =>
    case CTime =>
    case ChgTime =>
    case MTime =>
    case SpaceUsed =>
  }

  /** Two encodings are one encoding of the merged list, text for text. */
  lemma RefillTwice(a: AttrList, b: AttrList, d: Dict)
    ensures Refill(b, Refill(a, d)) == Refill(Merge(a, b), d)
  {
    hide Encoded, Merge;
    forall n | n in d
      ensures Refill(b, Refill(a, d))[n] == Refill(Merge(a, b), d)[n]
    {
      if MetaOf(n).Some? {
        MergedText(a, b, MetaOf(n).value);
      }
    }
  }

  /** Writing the same list again changes nothing. */
  lemma RefillIdempotent(a: AttrList, d: Dict)
    ensures Refill(a, Refill(a, d)) == Refill(a, d)
  {
  }
}
