/** cloud_structures.c: the attribute dictionary that travels with every object.  It is an array of
    13 name/value pairs whose names are the decimal texts of an enumeration. */
module CloudStructures {
  import opened Decimal

  const METADATACOUNT: nat := 13

  datatype Option<+T> = None | Some(value: T)

  /** metadata_name */
  datatype MetaName =
    | FileType | FileSize | FsId | FileId | Mode | NumLinks | Owner | Group
    | ATime | CTime | ChgTime | MTime | SpaceUsed
  {
    function Index(): (i: nat)
      ensures i < METADATACOUNT
    {
      match this
      case FileType => 0
      case FileSize => 1
      case FsId => 2
      case FileId => 3
      case Mode => 4
      case NumLinks => 5
      case Owner => 6
      case Group => 7
      case ATime => 8
      case CTime => 9
      case ChgTime => 10
      case MTime => 11
      case SpaceUsed => 12
    }

    /** The name of the entry; see TextIsDecimal. */
    function Text(): string {
      match this
      case FileType => "0"
      case FileSize => "1"
      case FsId => "2"
      case FileId => "3"
      case Mode => "4"
      case NumLinks => "5"
      case Owner => "6"
      case Group => "7"
      case ATime => "8"
      case CTime => "9"
      case ChgTime => "10"
      case MTime => "11"
      case SpaceUsed => "12"
    }
  }

  function OfIndex(i: int): (m: Option<MetaName>)
    ensures m.Some? <==> 0 <= i < METADATACOUNT
    ensures m.Some? ==> m.value.Index() == i
  {
    match i
    case 0 => Some(FileType)
    case 1 => Some(FileSize)
    case 2 => Some(FsId)
    case 3 => Some(FileId)
    case 4 => Some(Mode)
    case 5 => Some(NumLinks)
    case 6 => Some(Owner)
    case 7 => Some(Group)
    case 8 => Some(ATime)
    case 9 => Some(CTime)
    case 10 => Some(ChgTime)
    case 11 => Some(MTime)
    case 12 => Some(SpaceUsed)
    case _ => None
  }

  /** The entry that a name stands for, when it is one of the 13. */
  function MetaOf(name: string): (m: Option<MetaName>)
    ensures m.Some? ==> m.value.Text() == name
  {
    match ScanInt(name)
    case NoMatch => None
    case Match(i, _) =>
      var m := OfIndex(i);
      if m.Some? && m.value.Text() == name then m else None
  }

  /** The names are what sprintf(s, "%d", mname) prints. */
  lemma TextIsDecimal(m: MetaName)
    ensures m.Text() == PrintNat(m.Index())
  {
    if m.Index() < 10 {
    } else {
      TensAndOnes(m.Index());
      assert Tens(m.Index()) == 1 && Ones(m.Index()) == m.Index() - 10;
      assert PrintNat(1) == "1";
    }
  }

  lemma MetaOfText(m: MetaName)
    ensures ScanInt(m.Text()) == Match(m.Index(), "")
    ensures OfIndex(m.Index()) == Some(m)
    ensures MetaOf(m.Text()) == Some(m)
  {
    TextIsDecimal(m);
    ScanPrintUInt64(m.Index(), 0);
  }

  lemma IndexInjective(m: MetaName, n: MetaName)
    requires m.Index() == n.Index()
    ensures m == n
  {
  }

  ghost function AllNames(): set<string> {
    set m: MetaName :: m.Text()
  }

  lemma AllNamesHaveMeta()
    ensures forall n :: n in AllNames() <==> MetaOf(n).Some?
    ensures forall m: MetaName :: MetaOf(m.Text()) == Some(m)
  {
    forall m: MetaName
      ensures MetaOf(m.Text()) == Some(m)
    {
      MetaOfText(m);
    }
  }

  // ----- dictionaries, as arrays of entries and as maps -----

  /** dict */
  datatype Entry = Entry(name: string, value: string)

  type Dict = map<string, string>

  /** What a linear search sees: the first entry of a name decides. */
  function DictOf(s: seq<Entry>): Dict {
    if s == [] then map[] else DictOf(s[1..])[s[0].name := s[0].value]
  }

  predicate DistinctNames(s: seq<Entry>) {
    forall i, j :: 0 <= i < j < |s| ==> s[i].name != s[j].name
  }

  /** `s` lists the pairs of `d`, each once, in some order. */
  predicate Lists(s: seq<Entry>, d: Dict) {
    DistinctNames(s) && DictOf(s) == d
  }

  /** Exactly the 13 names "0".."12". */
  ghost predicate WellFormed(d: Dict) {
    d.Keys == AllNames()
  }

  lemma {:induction false} DictOfLookup(s: seq<Entry>, i: nat)
    requires DistinctNames(s) && i < |s|
    ensures s[i].name in DictOf(s) && DictOf(s)[s[i].name] == s[i].value
  {
    if i > 0 {
      DictOfLookup(s[1..], i - 1);
    }
  }

  lemma {:induction false} DictOfIndex(s: seq<Entry>, name: string) returns (i: nat)
    requires name in DictOf(s)
    ensures i < |s| && s[i].name == name && DictOf(s)[name] == s[i].value
    ensures forall j :: 0 <= j < i ==> s[j].name != name
  {
    if s[0].name == name {
      i := 0;
    } else {
      var i' := DictOfIndex(s[1..], name);
      i := i' + 1;
    }
  }

  lemma {:induction false} DictOfAbsent(s: seq<Entry>, name: string)
    requires forall j :: 0 <= j < |s| ==> s[j].name != name
    ensures name !in DictOf(s)
  {
    if s != [] {
      DictOfAbsent(s[1..], name);
    }
  }

  /** Overwriting the first entry of a name is a map update. */
  lemma {:induction false} DictOfReplace(s: seq<Entry>, i: nat, v: string)
    requires i < |s|
    requires forall j :: 0 <= j < i ==> s[j].name != s[i].name
    ensures DictOf(s[i := s[i].(value := v)]) == DictOf(s)[s[i].name := v]
    ensures s[i].name in DictOf(s)
  {
    var s' := s[i := s[i].(value := v)];
    if i == 0 {
      assert s'[1..] == s[1..];
    } else {
      DictOfReplace(s[1..], i - 1, v);
      assert s'[1..] == s[1..][i - 1 := s[i].(value := v)];
    }
  }

  lemma {:induction false} DictOfSnoc(s: seq<Entry>, e: Entry)
    requires DistinctNames(s + [e])
    ensures e.name !in DictOf(s)
    ensures DictOf(s + [e]) == DictOf(s)[e.name := e.value]
  {
    var t := s + [e];
    assert forall j :: 0 <= j < |s| ==> t[j].name != t[|s|].name && s[j].name == t[j].name;
    if s != [] {
      assert t[1..] == s[1..] + [e];
      DictOfSnoc(s[1..], e);
    }
  }

  /** With distinct names the map does not depend on the order of the entries. */
  lemma OrderInsensitive(s: seq<Entry>, t: seq<Entry>)
    requires DistinctNames(s) && DistinctNames(t)
    requires multiset(s) == multiset(t)
    ensures DictOf(s) == DictOf(t)
  {
    DictOfIncluded(s, t);
    DictOfIncluded(t, s);
  }

  lemma DictOfIncluded(s: seq<Entry>, t: seq<Entry>)
    requires DistinctNames(t)
    requires multiset(s) == multiset(t)
    ensures forall n :: n in DictOf(s) ==> n in DictOf(t) && DictOf(t)[n] == DictOf(s)[n]
  {
    forall n | n in DictOf(s)
      ensures n in DictOf(t) && DictOf(t)[n] == DictOf(s)[n]
    {
      var i := DictOfIndex(s, n);
      assert s[i] in multiset(t);
      var j :| 0 <= j < |t| && t[j] == s[i];
      DictOfLookup(t, j);
    }
  }

  /** Every dictionary can be listed, so a store can always answer. */
  lemma {:induction false} ListingExists(d: Dict) returns (s: seq<Entry>)
    ensures Lists(s, d)
    decreases d.Keys
  {
    if d.Keys == {} {
      s := [];
      assert d == map[];
    } else {
      var n :| n in d;
      var d' := d - {n};
      assert n !in d';
      var s' := ListingExists(d');
      s := [Entry(n, d[n])] + s';
      assert s[1..] == s';
      forall j | 0 <= j < |s'|
        ensures s'[j].name != n
      {
        DictOfLookup(s', j);
      }
      assert DictOf(s) == d;
    }
  }

  /** A listing of a dictionary has one entry for each of its keys. */
  lemma {:induction false} ListingSize(s: seq<Entry>)
    requires DistinctNames(s)
    ensures |DictOf(s)| == |s|
  {
    if s != [] {
      ListingSize(s[1..]);
      DictOfAbsent(s[1..], s[0].name);
    }
  }

  lemma WellFormedSize(d: Dict)
    requires WellFormed(d)
    ensures |d| == METADATACOUNT
  {
    IndexSet(METADATACOUNT);
    assert |d.Keys| == |AllNames()|;
    NamesBelow(METADATACOUNT);
    assert AllNames() == NamesUpTo(METADATACOUNT);
  }

  lemma {:induction false} DictSize(s: seq<Entry>)
    ensures |DictOf(s)| <= |s|
  {
    if s != [] {
      DictSize(s[1..]);
      var d := DictOf(s[1..]);
      assert DictOf(s).Keys == d.Keys + {s[0].name};
    }
  }

  ghost function NamesUpTo(k: nat): set<string> {
    set m: MetaName | m.Index() < k :: m.Text()
  }

  lemma IndexSet(k: nat)
    requires k <= METADATACOUNT
    ensures |NamesUpTo(k)| == k
  {
    if k == 0 {
      assert NamesUpTo(0) == {};
    } else {
      IndexSet(k - 1);
      var m := OfIndex(k - 1).value;
      NextName(m);
    }
  }

  lemma NextName(m: MetaName)
    ensures NamesUpTo(m.Index() + 1) == NamesUpTo(m.Index()) + {m.Text()}
    ensures m.Text() !in NamesUpTo(m.Index())
  {
  }

  lemma NamesBelow(k: nat)
    requires k == METADATACOUNT
    ensures NamesUpTo(k) == AllNames()
  {
  }

  // ----- the operations -----

  datatype FileTypeValue = RegularFileT | DirectoryT
  {
    function Text(): string {
      if RegularFileT? then PrintNat(0) else PrintNat(1)
    }
  }

  lemma TypeTexts()
    ensures RegularFileT.Text() == "0" && DirectoryT.Text() == "1"
  {
  }

  function DefaultValue(m: MetaName, t: FileTypeValue, fileId: string, nowText: string): string {
    match m
    case FileType => t.Text()
    case FileSize => "0"
    case FsId => "0"
    case FileId => fileId
    case Mode => "493"
    case NumLinks => "2"
    case Owner => "1000"
    case Group => "1000"
    case ATime => nowText
    case CTime => nowText
    case ChgTime => nowText
    case MTime => nowText
    case SpaceUsed => "0"
  }

  /** The dictionary of a new object. */
  ghost function Defaults(t: FileTypeValue, fileId: string, nowText: string): (d: Dict)
    ensures WellFormed(d)
  {
    AllNamesHaveMeta();
    map n | n in AllNames() :: DefaultValue(MetaOf(n).value, t, fileId, nowText)
  }

  /** The defaults entry by entry, under the names and with the texts that are stored. */
  ghost predicate DefaultTable(d: Dict, t: FileTypeValue, fileId: string, nowText: string) {
    && d.Keys == {"0", "1", "2", "3", "4", "5", "6", "7", "8", "9", "10", "11", "12"}
    && d["0"] == (match t case RegularFileT => "0" case DirectoryT => "1")
    && d["1"] == "0" && d["2"] == "0" && d["3"] == fileId && d["4"] == "493" && d["5"] == "2"
    && d["6"] == "1000" && d["7"] == "1000"
    && d["8"] == d["9"] == d["10"] == d["11"] == nowText
    && d["12"] == "0"
  }

  lemma NamesInFull()
    ensures AllNames() == {"0", "1", "2", "3", "4", "5", "6", "7", "8", "9", "10", "11", "12"}
  {
    forall n: string
      ensures n in AllNames() <==> n in {"0", "1", "2", "3", "4", "5", "6", "7", "8", "9", "10", "11", "12"}
    {
      if n in AllNames() {
        var m: MetaName :| m.Text() == n;
        NameInFull(m);
      } else {
        NamesFromEntries();
      }
    }
  }

  lemma NameInFull(m: MetaName)
    ensures m.Text() in {"0", "1", "2", "3", "4", "5", "6", "7", "8", "9", "10", "11", "12"}
  {
  }

  lemma NamesFromEntries()
    ensures {"0", "1", "2", "3", "4", "5", "6", "7", "8", "9", "10", "11", "12"} <= AllNames()
  {
    assert FileType.Text() == "0" && FileSize.Text() == "1" && FsId.Text() == "2" && FileId.Text() == "3";
    assert Mode.Text() == "4" && NumLinks.Text() == "5" && Owner.Text() == "6" && Group.Text() == "7";
    assert ATime.Text() == "8" && CTime.Text() == "9" && ChgTime.Text() == "10" && MTime.Text() == "11";
    assert SpaceUsed.Text() == "12";
  }

  lemma DefaultAt(t: FileTypeValue, fileId: string, nowText: string, m: MetaName)
    ensures m.Text() in AllNames()
    ensures Defaults(t, fileId, nowText)[m.Text()] == DefaultValue(m, t, fileId, nowText)
  {
    hide MetaName.Text, DefaultValue;
    AllNamesHaveMeta();
  }

  lemma DefaultsInFull(t: FileTypeValue, fileId: string, nowText: string)
    ensures DefaultTable(Defaults(t, fileId, nowText), t, fileId, nowText)
  {
    NamesInFull();
    hide Defaults;
    DefaultAt(t, fileId, nowText, FileType);
    DefaultAt(t, fileId, nowText, FileSize);
    DefaultAt(t, fileId, nowText, FsId);
    DefaultAt(t, fileId, nowText, FileId);
    DefaultAt(t, fileId, nowText, Mode);
    DefaultAt(t, fileId, nowText, NumLinks);
    DefaultAt(t, fileId, nowText, Owner);
    DefaultAt(t, fileId, nowText, Group);
    DefaultAt(t, fileId, nowText, ATime);
    DefaultAt(t, fileId, nowText, CTime);
    DefaultAt(t, fileId, nowText, ChgTime);
    DefaultAt(t, fileId, nowText, MTime);
    DefaultAt(t, fileId, nowText, SpaceUsed);
  }

  function DefaultEntries(t: FileTypeValue, fileId: string, nowText: string): seq<Entry> {
    [Entry(FileType.Text(), t.Text()), Entry(FileSize.Text(), "0"), Entry(FsId.Text(), "0"),
     Entry(FileId.Text(), fileId), Entry(Mode.Text(), "493"), Entry(NumLinks.Text(), "2"),
     Entry(Owner.Text(), "1000"), Entry(Group.Text(), "1000"), Entry(ATime.Text(), nowText),
     Entry(CTime.Text(), nowText), Entry(ChgTime.Text(), nowText), Entry(MTime.Text(), nowText),
     Entry(SpaceUsed.Text(), "0")]
  }

  lemma DefaultEntryAt(t: FileTypeValue, fileId: string, nowText: string, m: MetaName)
    ensures |DefaultEntries(t, fileId, nowText)| == METADATACOUNT
    ensures DefaultEntries(t, fileId, nowText)[m.Index()] == Entry(m.Text(), DefaultValue(m, t, fileId, nowText))
  {
  }

  lemma DefaultsListed(t: FileTypeValue, fileId: string, nowText: string)
    ensures Lists(DefaultEntries(t, fileId, nowText), Defaults(t, fileId, nowText))
  {
    var s := DefaultEntries(t, fileId, nowText);
    AllNamesHaveMeta();
    forall m: MetaName
      ensures m.Text() in AllNames() && s[m.Index()] == Entry(m.Text(), Defaults(t, fileId, nowText)[m.Text()])
    {
      DefaultEntryAt(t, fileId, nowText, m);
    }
    IndexedIsListed(s, Defaults(t, fileId, nowText));
  }

  lemma IndexedIsListed(s: seq<Entry>, d: Dict)
    requires |s| == METADATACOUNT && WellFormed(d)
    requires forall m: MetaName :: m.Text() in AllNames() && s[m.Index()] == Entry(m.Text(), d[m.Text()])
    ensures Lists(s, d)
  {
    forall i, j | 0 <= i < j < |s|
      ensures s[i].name != s[j].name
    {
      var m, n := OfIndex(i).value, OfIndex(j).value;
      assert s[m.Index()].name == m.Text() && s[n.Index()].name == n.Text();
      MetaOfText(m);
      MetaOfText(n);
    }
    forall n | n in d
      ensures n in DictOf(s) && DictOf(s)[n] == d[n]
    {
      AllNamesHaveMeta();
      DictOfLookup(s, MetaOf(n).value.Index());
    }
    forall n | n in DictOf(s)
      ensures n in d
    {
      var i := DictOfIndex(s, n);
      var m := OfIndex(i).value;
      assert s[m.Index()].name == m.Text();
    }
  }

  method FillDefaults(metadata: array<Entry>, t: FileTypeValue, fileId: string, curTime: string)
    requires metadata.Length == METADATACOUNT
    modifies metadata
    ensures metadata[..] == DefaultEntries(t, fileId, curTime)
  {
    hide MetaName.Text, FileTypeValue.Text;
    metadata[0] := Entry(FileType.Text(), t.Text());
    metadata[1] := Entry(FileSize.Text(), "0");
    metadata[2] := Entry(FsId.Text(), "0");
    metadata[3] := Entry(FileId.Text(), fileId);
    metadata[4] := Entry(Mode.Text(), "493");
    metadata[5] := Entry(NumLinks.Text(), "2");
    metadata[6] := Entry(Owner.Text(), "1000");
    metadata[7] := Entry(Group.Text(), "1000");
    metadata[8] := Entry(ATime.Text(), curTime);
    metadata[9] := Entry(CTime.Text(), curTime);
    metadata[10] := Entry(ChgTime.Text(), curTime);
    metadata[11] := Entry(MTime.Text(), curTime);
    metadata[12] := Entry(SpaceUsed.Text(), "0");
  }

  /** set_default_metadata, with the clock reading as a parameter. */
  method SetDefaultMetadata(t: FileTypeValue, fileId: string, now: Time) returns (metadata: array<Entry>)
    ensures fresh(metadata) && metadata.Length == METADATACOUNT
    ensures Lists(metadata[..], Defaults(t, fileId, PrintTime(now)))
    ensures DefaultTable(DictOf(metadata[..]), t, fileId, PrintTime(now))
  {
    var curTime := PrintTime(now);
    metadata := new Entry[METADATACOUNT](_ => Entry("", ""));
    FillDefaults(metadata, t, fileId, curTime);
    DefaultsListed(t, fileId, curTime);
    DefaultsInFull(t, fileId, curTime);
  }

  /** What one replacement does to the map: an unknown name changes nothing. */
  function Replaced(d: Dict, m: MetaName, v: string): Dict {
    if m.Text() in d then d[m.Text() := v] else d
  }

  /** replace_metadata_value: a linear search for the name, then an overwrite in place.  When the
      search fails the trailing assertion of the source still holds, so nothing happens. */
  method ReplaceMetadataValue(metadata: array<Entry>, mname: MetaName, mvalue: string)
    requires metadata.Length == METADATACOUNT
    modifies metadata
    ensures DictOf(metadata[..]) == Replaced(old(DictOf(metadata[..])), mname, mvalue)
    ensures forall i :: 0 <= i < metadata.Length ==> metadata[i].name == old(metadata[i].name)
    ensures old(DistinctNames(metadata[..])) ==> DistinctNames(metadata[..])
  {
    var nameText := mname.Text();
    var i := 0;
    while i < METADATACOUNT
      invariant 0 <= i <= METADATACOUNT
      invariant metadata[..] == old(metadata[..])
      invariant forall j :: 0 <= j < i ==> metadata[j].name != nameText
    {
      if metadata[i].name == nameText {
        ghost var before := metadata[..];
        DictOfReplace(before, i, mvalue);
        metadata[i] := metadata[i].(value := mvalue);
        assert metadata[..] == before[i := before[i].(value := mvalue)];
        return;
      }
      i := i + 1;
    }
    DictOfAbsent(metadata[..], nameText);
  }

  /** get_metadata_value: `previous` is what the caller's buffer holds, kept when the name is missing. */
  method GetMetadataValue(metadata: array<Entry>, mname: MetaName, previous: string) returns (mvalue: string)
    requires metadata.Length == METADATACOUNT
    ensures mname.Text() in DictOf(metadata[..]) ==> mvalue == DictOf(metadata[..])[mname.Text()]
    ensures mname.Text() !in DictOf(metadata[..]) ==> mvalue == previous
  {
    var nameText := mname.Text();
    var i := 0;
    while i < METADATACOUNT
      invariant 0 <= i <= METADATACOUNT
      invariant forall j :: 0 <= j < i ==> metadata[j].name != nameText
    {
      if metadata[i].name == nameText {
        ghost var s := metadata[..];
        DictOfReplace(s, i, s[i].value);
        assert s[i := s[i].(value := s[i].value)] == s;
        return metadata[i].value;
      }
      i := i + 1;
    }
    DictOfAbsent(metadata[..], nameText);
    mvalue := previous;
  }

  // ----- file-size accounting -----

  /** The size a dictionary records, as inc_filesize_metadata reads it. */
  function RecordedSize(d: Dict): UInt64 {
    ScanUInt64(if FileSize.Text() in d then d[FileSize.Text()] else "", 0)
  }

  function SizeIncreased(d: Dict, inc: UInt64): Dict {
    var text := PrintNat(AddUInt64(RecordedSize(d), inc));
    Replaced(Replaced(d, FileSize, text), SpaceUsed, text)
  }

  /** A complete dictionary whose entry "1" has this text, whatever entry "12" holds. */
  ghost predicate SizeTextIs(d: Dict, text: string) {
    WellFormed(d) && "1" in d && d["1"] == text
  }

  function BothSizes(d: Dict, text: string): Dict {
    d["1" := text]["12" := text]
  }

  lemma IncreaseFromText(d: Dict, n: UInt64, inc: UInt64)
    requires SizeTextIs(d, PrintNat(n))
    ensures RecordedSize(d) == n
    ensures SizeIncreased(d, inc) == BothSizes(d, PrintNat(AddUInt64(n, inc)))
  {
    hide PrintNat;
    ScanPrintUInt64(n, 0);
    NamesInFull();
  }

  /** inc_filesize_metadata: size_t addition wraps around at 2^64. */
  method IncFilesizeMetadata(metadata: array<Entry>, inc: UInt64)
    requires metadata.Length == METADATACOUNT
    modifies metadata
    ensures DictOf(metadata[..]) == SizeIncreased(old(DictOf(metadata[..])), inc)
    ensures forall n: UInt64 :: SizeTextIs(old(DictOf(metadata[..])), PrintNat(n)) ==>
      DictOf(metadata[..]) == BothSizes(old(DictOf(metadata[..])), PrintNat(AddUInt64(n, inc)))
    ensures old(DistinctNames(metadata[..])) ==> DistinctNames(metadata[..])
  {
    ghost var d := DictOf(metadata[..]);
    var text := GetMetadataValue(metadata, FileSize, "");
    var filesize := ScanUInt64(text, 0);
    assert filesize == RecordedSize(DictOf(metadata[..]));
    filesize := AddUInt64(filesize, inc);
    text := PrintNat(filesize);
    ReplaceMetadataValue(metadata, FileSize, text);
    ReplaceMetadataValue(metadata, SpaceUsed, text);
    SizesFromText(d, inc);
  }

  lemma SizesFromText(d: Dict, inc: UInt64)
    ensures forall n: UInt64 :: SizeTextIs(d, PrintNat(n)) ==>
      SizeIncreased(d, inc) == BothSizes(d, PrintNat(AddUInt64(n, inc)))
  {
    hide PrintNat, SizeTextIs, SizeIncreased;
    forall n: UInt64 | SizeTextIs(d, PrintNat(n))
      ensures SizeIncreased(d, inc) == BothSizes(d, PrintNat(AddUInt64(n, inc)))
    {
      IncreaseFromText(d, n, inc);
    }
  }

  function SizeAfter(d: Dict, incs: seq<UInt64>): Dict {
    if incs == [] then d else SizeIncreased(SizeAfter(d, incs[..|incs| - 1]), incs[|incs| - 1])
  }

  function Sum(incs: seq<UInt64>): nat {
    if incs == [] then 0 else Sum(incs[..|incs| - 1]) + incs[|incs| - 1]
  }

  lemma RecordedAfterIncrease(d: Dict, inc: UInt64)
    requires WellFormed(d)
    ensures WellFormed(SizeIncreased(d, inc))
    ensures RecordedSize(SizeIncreased(d, inc)) == AddUInt64(RecordedSize(d), inc)
  {
    var size := AddUInt64(RecordedSize(d), inc);
    ScanPrintUInt64(size, 0);
    var fs := FileSize;
    assert fs.Text() in AllNames();
    AllNamesHaveMeta();
  }

  /** Any series of increments adds up modulo 2^64. */
  lemma {:induction false} SizeAccounting(d: Dict, incs: seq<UInt64>)
    requires WellFormed(d)
    ensures WellFormed(SizeAfter(d, incs))
    ensures RecordedSize(SizeAfter(d, incs)) == Modulo64(RecordedSize(d) + Sum(incs))
  {
    hide RecordedSize;
    if incs != [] {
      var init, inc := incs[..|incs| - 1], incs[|incs| - 1];
      SizeAccounting(d, init);
      RecordedAfterIncrease(SizeAfter(d, init), inc);
      AddModulo64(RecordedSize(d) + Sum(init), inc);
    }
  }

  /** `d` with both size entries set to the text of `size`. */
  function SizeSet(d: Dict, size: UInt64): Dict {
    d[FileSize.Text() := PrintNat(size)][SpaceUsed.Text() := PrintNat(size)]
  }

  /** ... in both size entries and nowhere else. */
  lemma SizeEntries(d: Dict, incs: seq<UInt64>)
    requires WellFormed(d) && incs != []
    ensures SizeAfter(d, incs) == SizeSet(d, Modulo64(RecordedSize(d) + Sum(incs)))
  {
    SizeAccounting(d, incs);
    SizeEntriesRecorded(d, incs);
  }

  lemma {:induction false} SizeEntriesRecorded(d: Dict, incs: seq<UInt64>)
    requires WellFormed(d) && incs != []
    ensures SizeAfter(d, incs) == SizeSet(d, RecordedSize(SizeAfter(d, incs)))
  {
    hide RecordedSize;
    var init, inc := incs[..|incs| - 1], incs[|incs| - 1];
    var before := SizeAfter(d, init);
    SizeAccounting(d, init);
    RecordedAfterIncrease(before, inc);
    var fs, su := FileSize, SpaceUsed;
    assert fs.Text() in AllNames() && su.Text() in AllNames();
    if init != [] {
      SizeEntriesRecorded(d, init);
    }
    assert SizeAfter(d, incs) == SizeSet(before, AddUInt64(RecordedSize(before), inc));
  }

  /** A dictionary that starts at size zero, such as the defaults, records the plain sum. */
  lemma SizeFromZero(d: Dict, incs: seq<UInt64>)
    requires WellFormed(d) && incs != []
    requires RecordedSize(d) == 0
    ensures SizeAfter(d, incs) == SizeSet(d, Modulo64(Sum(incs)))
  {
    SizeEntries(d, incs);
  }

  /** From a dictionary with size n, any series of increments leaves the decimal text of n plus their
      sum modulo 2^64 in entries "1" and "12", whatever "12" held, and all else as it was. */
  lemma SizeFromText(d: Dict, n: UInt64, incs: seq<UInt64>)
    requires SizeTextIs(d, PrintNat(n)) && incs != []
    ensures SizeAfter(d, incs) == BothSizes(d, PrintNat(Modulo64(n + Sum(incs))))
  {
    hide RecordedSize, SizeAfter, PrintNat, Modulo64;
    IncreaseFromText(d, n, 0);
    SizeEntries(d, incs);
  }

  lemma DefaultSize(t: FileTypeValue, fileId: string, nowText: string)
    ensures RecordedSize(Defaults(t, fileId, nowText)) == 0
  {
  }
}
