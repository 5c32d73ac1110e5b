/** Runs of listBucketCallback: when the split of a listing into batches cannot be observed. */
module BatchLaws {
  import opened CText
  import opened Listing
  import opened ListAccumulator

  function Run(names: seq<string>, bs: seq<Batch>): seq<string>
    decreases bs
  {
    if bs == [] then names else Run(Collected(names, bs[0]), bs[1..])
  }

  /** The names of all entries, in the order in which they arrive. */
  function AllNames(bs: seq<Batch>): seq<string> {
    if bs == [] then [] else bs[0].Names() + AllNames(bs[1..])
  }

  /** What the caller wants: everything but the first entry, the directory itself. */
  function Wanted(bs: seq<Batch>): seq<string> {
    if AllNames(bs) == [] then [] else AllNames(bs)[1..]
  }

  predicate AllEmpty(bs: seq<Batch>) {
    forall i :: 0 <= i < |bs| ==> bs[i].Size() == 0
  }

  predicate NoneEmpty(bs: seq<Batch>) {
    forall i :: 0 <= i < |bs| ==> bs[i].Size() > 0
  }

  /** After empty batches, a first batch with a content and a second entry and then no empty batch; or
      just one entry altogether; or nothing at all. */
  predicate WellBatched(bs: seq<Batch>) {
    bs == [] ||
    (if bs[0].Size() == 0 then WellBatched(bs[1..])
     else if bs[0].Size() == 1 then AllEmpty(bs[1..])
     else bs[0].contents != [] && NoneEmpty(bs[1..]))
  }

  predicate DistinctPrefixes(bs: seq<Batch>) {
    forall i :: 0 <= i < |bs| ==> NoRepeats(Bases(bs[i].prefixes))
  }

  lemma {:induction false} AllEmptyNames(bs: seq<Batch>)
    ensures AllNames(bs) == [] <==> AllEmpty(bs)
  {
    if bs != [] {
      AllEmptyNames(bs[1..]);
      assert |AllNames(bs)| == bs[0].Size() + |AllNames(bs[1..])|;
      assert AllEmpty(bs) <==> bs[0].Size() == 0 && AllEmpty(bs[1..]) by {
        assert forall i :: 1 <= i < |bs| ==> bs[i] == bs[1..][i - 1];
        assert AllEmpty(bs) ==> forall i :: 0 <= i < |bs[1..]| ==> bs[1..][i] == bs[i + 1];
      }
    }
  }

  /** The callback never counts more than it was given, and from an empty start one less. */
  lemma {:induction false} RunLength(names: seq<string>, bs: seq<Batch>)
    ensures |Run(names, bs)| <= |names| + |AllNames(bs)|
    ensures names == [] && AllNames(bs) != [] ==> |Run(names, bs)| < |AllNames(bs)|
    decreases bs
  {
    if bs != [] {
      RunLength(Collected(names, bs[0]), bs[1..]);
    }
  }

  lemma NoneEmptyTail(bs: seq<Batch>)
    requires bs != []
    ensures NoneEmpty(bs) <==> bs[0].Size() > 0 && NoneEmpty(bs[1..])
  {
  }

  /** Once something has been collected, everything else arrives exactly if no batch is empty. */
  lemma {:induction false} RunNonempty(names: seq<string>, bs: seq<Batch>)
    requires names != []
    ensures Run(names, bs) == names + AllNames(bs) <==> NoneEmpty(bs)
    ensures !NoneEmpty(bs) ==> |Run(names, bs)| < |names| + |AllNames(bs)|
    decreases bs
  {
    hide Bases, Batch.Names, Batch.Size;
    if bs == [] {
      assert names + AllNames(bs) == names;
    } else if bs[0].Size() == 0 {
      RunLength([], bs[1..]);
    } else {
      RunNonempty(names + bs[0].Names(), bs[1..]);
      assert names + AllNames(bs) == names + bs[0].Names() + AllNames(bs[1..]);
      NoneEmptyTail(bs);
    }
  }

  lemma EmptyFirst(bs: seq<Batch>)
    requires bs != [] && bs[0].Size() == 0
    ensures Run([], bs) == Run([], bs[1..]) && Wanted(bs) == Wanted(bs[1..])
  {
    AllNamesHead(bs);
    assert bs[0].Names() == [];
    assert AllNames(bs) == AllNames(bs[1..]);
  }

  lemma OneEntryFirst(bs: seq<Batch>)
    requires bs != [] && bs[0].Size() == 1
    ensures Run([], bs) == Wanted(bs) <==> AllEmpty(bs[1..])
  {
    hide AllNames, AllEmpty, Bases, Batch.Names;
    var rest := bs[1..];
    assert Collected([], bs[0]) == [];
    AllNamesHead(bs);
    assert Wanted(bs) == AllNames(rest);
    RunLength([], rest);
    AllEmptyNames(rest);
  }

  lemma MoreEntriesFirst(bs: seq<Batch>)
    requires bs != [] && bs[0].Size() >= 2
    ensures bs[0].contents != [] && NoneEmpty(bs[1..]) ==> Run([], bs) == Wanted(bs)
    ensures NoRepeats(Bases(bs[0].prefixes)) && Run([], bs) == Wanted(bs) ==> bs[0].contents != [] && NoneEmpty(bs[1..])
  {
    hide AllNames, NoneEmpty, NoRepeats, Bases, Batch.Names, Collected;
    var rest, first := bs[1..], Collected([], bs[0]);
    AllNamesHead(bs);
    FirstBatch(bs[0], AllNames(rest));
    RunNonempty(first, rest);
  }

  lemma DistinctTail(bs: seq<Batch>)
    requires bs != [] && DistinctPrefixes(bs)
    ensures NoRepeats(Bases(bs[0].prefixes)) && DistinctPrefixes(bs[1..])
  {
    hide NoRepeats, Bases;
  }

  /** The split of a listing cannot be observed exactly when it is well batched: the array then holds
      all entries but the first to arrive, in order, and with any other split it does not. */
  lemma {:induction false} BatchIndependence(bs: seq<Batch>)
    ensures WellBatched(bs) ==> Run([], bs) == Wanted(bs)
    ensures DistinctPrefixes(bs) && Run([], bs) == Wanted(bs) ==> WellBatched(bs)
  {
    if bs == [] {
    } else {
      hide Run, Wanted, NoneEmpty, AllEmpty, DistinctPrefixes, NoRepeats, Bases, Batch.Names;
      if DistinctPrefixes(bs) {
        DistinctTail(bs);
      }
      if bs[0].Size() == 0 {
        EmptyFirst(bs);
        BatchIndependence(bs[1..]);
      } else if bs[0].Size() == 1 {
        OneEntryFirst(bs);
      } else {
        MoreEntriesFirst(bs);
      }
    }
  }

  /** The first batch with any entry has a content. */
  predicate FirstHasContent(bs: seq<Batch>) {
    bs == [] || (if bs[0].Size() == 0 then FirstHasContent(bs[1..]) else bs[0].contents != [])
  }

  /** A split that is not well batched loses names, not just their order. */
  lemma {:induction false} NamesLost(bs: seq<Batch>)
    requires FirstHasContent(bs) && !WellBatched(bs)
    ensures |Run([], bs)| < |Wanted(bs)|
  {
    hide AllNames, Bases, Batch.Names;
    AllNamesHead(bs);
    var rest := bs[1..];
    if bs[0].Size() == 0 {
      NamesLost(rest);
      assert bs[0].Names() == [];
    } else if bs[0].Size() == 1 {
      AllEmptyNames(rest);
      RunLength([], rest);
    } else {
      RunNonempty(Collected([], bs[0]), rest);
    }
  }

  /** Earlier batches hold the smaller keys. */
  ghost predicate InByteOrder(bs: seq<Batch>) {
    forall i, j, x, y ::
      0 <= i < j < |bs| && x in bs[i].contents + bs[i].prefixes && y in bs[j].contents + bs[j].prefixes ==> Less(x, y)
  }

  /** A content below all common prefixes makes the first batch with any entry have a content. */
  lemma {:induction false} LeastComesFirst(bs: seq<Batch>, self: string)
    requires InByteOrder(bs) && self in AllContents(bs)
    requires forall c :: c in AllPrefixes(bs) ==> Less(self, c)
    ensures FirstHasContent(bs)
  {
    var rest := bs[1..];
    if bs[0].Size() == 0 {
      assert forall i :: 0 <= i < |rest| ==> rest[i] == bs[i + 1];
      LeastComesFirst(rest, self);
    } else if bs[0].contents == [] {
      var c := bs[0].prefixes[0];
      assert c in AllPrefixes(bs);
      var j := BatchOf(rest, self);
      assert self in bs[j + 1].contents + bs[j + 1].prefixes && c in bs[0].contents + bs[0].prefixes;
      LessAsymmetric(c, self);
      assert false;
    }
  }

  lemma {:induction false} BatchOf(bs: seq<Batch>, k: string) returns (j: nat)
    requires k in AllContents(bs)
    ensures j < |bs| && k in bs[j].contents
  {
    if k in bs[0].contents {
      j := 0;
    } else {
      var i := BatchOf(bs[1..], k);
      j := i + 1;
    }
  }

  lemma AllNamesHead(bs: seq<Batch>)
    requires bs != []
    ensures AllNames(bs) == bs[0].Names() + AllNames(bs[1..])
    ensures |AllNames(bs)| == bs[0].Size() + |AllNames(bs[1..])|
  {
  }

  lemma FirstBatch(b: Batch, later: seq<string>)
    requires b.Size() >= 2
    ensures b.contents != [] ==> Collected([], b) + later == (b.Names() + later)[1..]
    ensures b.contents == [] && NoRepeats(Bases(b.prefixes)) ==> Collected([], b) + later != (b.Names() + later)[1..]
    ensures Collected([], b) != []
    ensures |Collected([], b) + later| == |(b.Names() + later)[1..]|
  {
    if b.contents == [] {
      var ps := Bases(b.prefixes);
      assert b.Names() == ps;
      assert (Collected([], b) + later)[0] == ps[0] && (b.Names() + later)[1..][0] == ps[1];
    } else {
      assert b.Names()[1..] + later == (b.Names() + later)[1..];
    }
  }

  /** The smallest split that loses a name: the directory's own key arrives alone, so the count is
      still zero and the second batch is taken for the first. */
  lemma LostName()
    ensures var bs := [Batch(["0/"], []), Batch(["0/a", "0/b"], [])];
      Wanted(bs) == ["a", "b"] && Run([], bs) == ["b"]
  {
    var b0, b1 := Batch(["0/"], []), Batch(["0/a", "0/b"], []);
    assert [b0, b1][1..] == [b1] && [b1][1..] == [];
    NamesOfExample();
    assert Collected([], b0) == [];
    assert Collected([], b1) == ["b"];
    assert AllNames([b1]) == b1.Names() + [];
    assert AllNames([b0, b1]) == b0.Names() + AllNames([b1]);
  }

  lemma NamesOfExample()
    ensures Batch(["0/a", "0/b"], []).Names() == ["a", "b"]
    ensures |Batch(["0/"], []).Names()| == 1
  {
    assert Basename("0/a") == "a" by { ExampleBase("a"); assert "0" + "/" + "a" == "0/a"; }
    assert Basename("0/b") == "b" by { ExampleBase("b"); assert "0" + "/" + "b" == "0/b"; }
    hide Basename;
  }

  lemma ExampleBase(name: string)
    requires ValidName(name)
    ensures Basename("0" + "/" + name) == name
  {
    hide Basename;
    BasenameOfChild("0", name);
  }

  /** A first batch of common prefixes only, which no listing in byte order has, takes all slots it
      needs but loses its last name to the next batch, or altogether. */
  lemma LastPrefixLost(ps: seq<string>, p: string, rest: seq<Batch>)
    requires ps != [] && NoneEmpty(rest)
    ensures Run([], [Batch([], ps + [p])] + rest) == Bases(ps) + AllNames(rest)
    ensures Fits([], [Batch([], ps + [p])]) <==> |ps| + 1 <= SLOTS
  {
    var b := Batch([], ps + [p]);
    var bs := [b] + rest;
    assert bs[1..] == rest;
    BasesAppend(ps, [p]);
    assert b.Names()[..|ps|] == Bases(ps);
    assert Collected([], b) == Bases(ps);
    RunNonempty(Bases(ps), rest);
  }

  /** An empty batch forgets everything collected before it. */
  lemma EmptyBatchForgets(names: seq<string>, b: Batch, rest: seq<Batch>)
    requires b.contents == [] && b.prefixes == []
    ensures Run(names, [b] + rest) == Run([], rest)
  {
    assert ([b] + rest)[1..] == rest;
  }

  // ----- the 100 slots -----

  predicate Fits(names: seq<string>, bs: seq<Batch>)
    decreases bs
  {
    bs == [] || (SlotsNeeded(names, bs[0]) <= SLOTS && Fits(Collected(names, bs[0]), bs[1..]))
  }

  lemma {:induction false} FitsNonempty(names: seq<string>, bs: seq<Batch>)
    requires names != [] && NoneEmpty(bs) && |names| <= SLOTS
    ensures Fits(names, bs) <==> |names| + |AllNames(bs)| <= SLOTS
    decreases bs
  {
    if bs != [] && |names| + bs[0].Size() <= SLOTS {
      FitsNonempty(names + bs[0].Names(), bs[1..]);
    }
  }

  lemma {:induction false} FitsEmpty(bs: seq<Batch>)
    requires AllEmpty(bs)
    ensures Fits([], bs)
  {
    if bs != [] {
      FitsEmpty(bs[1..]);
    }
  }

  /** A well-batched listing stays inside the array exactly when the directory has at most 100
      children. */
  lemma {:induction false} FitsExactly(bs: seq<Batch>)
    requires WellBatched(bs)
    ensures Fits([], bs) <==> |Wanted(bs)| <= SLOTS
  {
    if bs != [] {
      if bs[0].Size() == 0 {
        FitsExactly(bs[1..]);
        assert AllNames(bs) == AllNames(bs[1..]);
      } else if bs[0].Size() == 1 {
        FitsEmpty(bs[1..]);
        AllEmptyNames(bs[1..]);
      } else if bs[0].Size() - 1 <= SLOTS {
        FitsNonempty(bs[0].Names()[1..], bs[1..]);
      }
    }
  }

  // ----- batches of a listing -----

  function AllContents(bs: seq<Batch>): seq<string> {
    if bs == [] then [] else bs[0].contents + AllContents(bs[1..])
  }

  function AllPrefixes(bs: seq<Batch>): seq<string> {
    if bs == [] then [] else bs[0].prefixes + AllPrefixes(bs[1..])
  }

  lemma BasesAppend(a: seq<string>, b: seq<string>)
    ensures Bases(a + b) == Bases(a) + Bases(b)
  {
  }

  lemma {:induction false} AllNamesOf(bs: seq<Batch>)
    ensures multiset(AllNames(bs)) == multiset(Bases(AllContents(bs))) + multiset(Bases(AllPrefixes(bs)))
  {
    if bs != [] {
      AllNamesOf(bs[1..]);
      BasesAppend(bs[0].contents, AllContents(bs[1..]));
      BasesAppend(bs[0].prefixes, AllPrefixes(bs[1..]));
    }
  }

  lemma {:induction false} AllNamesCount(bs: seq<Batch>)
    ensures |AllNames(bs)| == |AllContents(bs)| + |AllPrefixes(bs)|
  {
    if bs != [] {
      AllNamesCount(bs[1..]);
    }
  }

  lemma FirstOfNames(b: Batch)
    requires b.contents != []
    ensures b.Names()[0] == Basename(b.contents[0])
  {
    hide Basename;
  }

  lemma {:induction false} FirstName(bs: seq<Batch>)
    requires WellBatched(bs) && AllContents(bs) != []
    ensures AllNames(bs) != [] && AllNames(bs)[0] == Basename(AllContents(bs)[0])
  {
    hide Basename, Bases, Batch.Names;
    if bs[0].Size() == 0 {
      FirstName(bs[1..]);
      assert bs[0].Names() == [];
    } else {
      if bs[0].Size() == 1 {
        AllEmptyContents(bs[1..]);
      }
      FirstOfNames(bs[0]);
    }
  }

  lemma {:induction false} AllEmptyContents(bs: seq<Batch>)
    requires AllEmpty(bs)
    ensures AllContents(bs) == []
  {
    if bs != [] {
      AllEmptyContents(bs[1..]);
    }
  }

  /** The names left after skipping the first entry: those of the other contents and of the prefixes,
      each as often as it is there. */
  lemma WantedNames(bs: seq<Batch>)
    requires WellBatched(bs) && AllContents(bs) != []
    ensures multiset(Wanted(bs)) == multiset(Bases(AllContents(bs)[1..])) + multiset(Bases(AllPrefixes(bs)))
  {
    hide AllNames, AllContents, AllPrefixes, WellBatched, Basename, Bases;
    AllNamesOf(bs);
    FirstName(bs);
    var cs, ns := AllContents(bs), AllNames(bs);
    HeadOfMultiset(ns);
    HeadOfBases(cs);
    CancelHead(ns[0], multiset(ns[1..]), multiset(Bases(cs[1..])) + multiset(Bases(AllPrefixes(bs))));
  }

  lemma CancelHead(x: string, a: multiset<string>, b: multiset<string>)
    requires multiset{x} + a == multiset{x} + b
    ensures a == b
  {
    assert a == (multiset{x} + a) - multiset{x};
  }

  lemma HeadOfMultiset(s: seq<string>)
    requires s != []
    ensures multiset(s) == multiset{s[0]} + multiset(s[1..])
  {
    assert s == [s[0]] + s[1..];
  }

  lemma HeadOfBases(cs: seq<string>)
    requires cs != []
    ensures multiset(Bases(cs)) == multiset{Basename(cs[0])} + multiset(Bases(cs[1..]))
  {
    assert Bases(cs) == [Basename(cs[0])] + Bases(cs[1..]);
  }
}
