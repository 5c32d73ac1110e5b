/** Whole runs of the connector, and what survives a transfer of data. */
module ConnectorLaws {
  import opened CloudStructures
  import opened Connector

  // ----- the gate -----

  /** The calls that matter to the gate and to the bucket, with their values. */
  datatype Call =
    | CallInit(libraryOk: bool, credentials: bool)
    | CallDeinit
    | CallPut(name: string, obj: Object)
    | CallPutMetadata(name: string, meta: Dict)
    | CallDelete(name: string)
  {
    predicate Opens() {
      CallInit? && libraryOk && credentials
    }

    predicate Mutates() {
      CallPut? || CallPutMetadata? || CallDelete?
    }

    /** The effect on a bucket, gate or no gate. */
    function Effect(b: Bucket): Bucket {
      match this
      case CallPut(name, obj) => AfterPut(b, name, obj)
      case CallPutMetadata(name, meta) => AfterPutMetadata(b, name, meta)
      case CallDelete(name) => AfterDelete(b, name)
      case _ => b
    }
  }

  datatype Gated = Gated(state: State, bucket: Bucket)

  /** One call as the methods of S3Connector perform it. */
  function Apply(s: Gated, c: Call): Gated {
    match c
    case CallInit(_, _) => if c.Opens() then s.(state := Initialized) else s
    case CallDeinit => s.(state := Deinitialized)
    case _ => if s.state == Initialized then s.(bucket := c.Effect(s.bucket)) else s
  }

  function Exec(s: Gated, calls: seq<Call>): Gated {
    if calls == [] then s else Apply(Exec(s, calls[..|calls| - 1]), calls[|calls| - 1])
  }

  /** The connector is up after `calls`: the last call to open or close it opened it. */
  ghost predicate Up(start: State, calls: seq<Call>) {
    || (exists i :: 0 <= i < |calls| && calls[i].Opens() && forall j :: i < j < |calls| ==> !calls[j].CallDeinit?)
    || (start == Initialized && forall j :: 0 <= j < |calls| ==> !calls[j].CallDeinit?)
  }

  /** The mutating calls made while the connector was up. */
  ghost function Effective(start: State, calls: seq<Call>): seq<Call> {
    if calls == [] then []
    else
      var init, c := calls[..|calls| - 1], calls[|calls| - 1];
      Effective(start, init) + if c.Mutates() && Up(start, init) then [c] else []
  }

  function Replay(b: Bucket, calls: seq<Call>): Bucket {
    if calls == [] then b else calls[|calls| - 1].Effect(Replay(b, calls[..|calls| - 1]))
  }

  lemma {:induction false} StateIsUp(s: Gated, calls: seq<Call>)
    ensures Exec(s, calls).state == Initialized <==> Up(s.state, calls)
  {
    if calls != [] {
      var init, c := calls[..|calls| - 1], calls[|calls| - 1];
      StateIsUp(s, init);
      UpStep(s.state, init, c);
      assert calls == init + [c];
    }
  }

  lemma UpStep(start: State, init: seq<Call>, c: Call)
    ensures Up(start, init + [c]) <==> c.Opens() || (Up(start, init) && !c.CallDeinit?)
  {
    var calls := init + [c];
    assert calls[|init|] == c && forall j :: 0 <= j < |init| ==> calls[j] == init[j];
    if c.Opens() {
      assert calls[|init|].Opens();
    } else if exists i :: 0 <= i < |init| && init[i].Opens() && forall j :: i < j < |init| ==> !init[j].CallDeinit? {
      var i :| 0 <= i < |init| && init[i].Opens() && forall j :: i < j < |init| ==> !init[j].CallDeinit?;
      if !c.CallDeinit? {
        assert calls[i].Opens();
      }
    }
  }

  /** For every run, the bucket is what the mutating calls made while the connector was up, and only
      those, make of it. */
  lemma {:induction false} GateIsExact(s: Gated, calls: seq<Call>)
    ensures Exec(s, calls).bucket == Replay(s.bucket, Effective(s.state, calls))
  {
    if calls != [] {
      var init, c := calls[..|calls| - 1], calls[|calls| - 1];
      GateIsExact(s, init);
      StateIsUp(s, init);
      if c.Mutates() && Up(s.state, init) {
        var done := Effective(s.state, init);
        assert (done + [c])[..|done|] == done;
      } else {
        assert Effective(s.state, calls) == Effective(s.state, init);
      }
    }
  }

  // ----- what a trace does to one key -----

  function At(b: Bucket, k: string): Option<Object> {
    if k in b then Some(b[k]) else None
  }

  /** The calls on one key that were made while the connector was up. */
  ghost function CallsOn(start: State, calls: seq<Call>, k: string): seq<Call> {
    if calls == [] then []
    else
      var init, c := calls[..|calls| - 1], calls[|calls| - 1];
      CallsOn(start, init, k) + if c.Mutates() && c.name == k && Up(start, init) then [c] else []
  }

  /** What a call leaves under its key: a delete nothing, a put its object, and new metadata is laid over
      what was there, if anything. */
  function Left(before: Option<Object>, c: Call): Option<Object> {
    match c
    case CallDelete(_) => None
    case CallPut(_, obj) => Some(obj)
    case CallPutMetadata(_, meta) => if before == None then None else Some(Object(before.value.data, meta))
    case _ => before
  }

  function Outcome(o: Option<Object>, on: seq<Call>): Option<Object> {
    if on == [] then o else Left(Outcome(o, on[..|on| - 1]), on[|on| - 1])
  }

  lemma ApplyOnKey(s: Gated, c: Call, k: string)
    ensures At(Apply(s, c).bucket, k) ==
      if s.state == Initialized && c.Mutates() && c.name == k then Left(At(s.bucket, k), c) else At(s.bucket, k)
  {
  }

  lemma OutcomeSnoc(o: Option<Object>, on: seq<Call>, c: Call)
    ensures Outcome(o, on + [c]) == Left(Outcome(o, on), c)
  {
    assert (on + [c])[..|on|] == on;
  }

  /** For every trace and every key: what is stored under it in the end is decided by the calls on that
      key made while the connector was up, and by no other call. */
  lemma {:induction false} TraceOnKey(s: Gated, calls: seq<Call>, k: string)
    ensures At(Exec(s, calls).bucket, k) == Outcome(At(s.bucket, k), CallsOn(s.state, calls, k))
  {
    hide Up, Apply, Left, Outcome, At;
    if calls == [] {
      NoCalls(At(s.bucket, k));
    } else {
      var init, c := calls[..|calls| - 1], calls[|calls| - 1];
      TraceOnKey(s, init, k);
      StateIsUp(s, init);
      ApplyOnKey(Exec(s, init), c, k);
      var on := CallsOn(s.state, init, k);
      if c.Mutates() && c.name == k && Up(s.state, init) {
        OutcomeSnoc(At(s.bucket, k), on, c);
      } else {
        assert CallsOn(s.state, calls, k) == on;
      }
    }
  }

  lemma NoCalls(o: Option<Object>)
    ensures Outcome(o, []) == o
  {
  }

  lemma {:induction false} CallsOnMutate(start: State, calls: seq<Call>, k: string)
    ensures forall c :: c in CallsOn(start, calls, k) ==> c.Mutates() && c.name == k
  {
    if calls != [] {
      CallsOnMutate(start, calls[..|calls| - 1], k);
    }
  }

  /** No put follows the last delete. */
  ghost predicate Removed(on: seq<Call>) {
    exists i :: 0 <= i < |on| && on[i].CallDelete? && forall j :: i < j < |on| ==> !on[j].CallPut?
  }

  ghost predicate NoPut(on: seq<Call>) {
    forall j :: 0 <= j < |on| ==> !on[j].CallPut?
  }

  lemma {:induction false} AbsentExactly(o: Option<Object>, on: seq<Call>)
    requires forall c :: c in on ==> c.Mutates()
    ensures Outcome(o, on) == None <==> Removed(on) || (o == None && NoPut(on))
  {
    if on != [] {
      var init, c := on[..|on| - 1], on[|on| - 1];
      assert on == init + [c];
      assert forall d :: d in init ==> d in on;
      assert c.Mutates();
      AbsentExactly(o, init);
      RemovedSnoc(init, c);
      hide Removed;
      assert NoPut(on) <==> NoPut(init) && !c.CallPut? by {
        assert forall j :: 0 <= j < |init| ==> on[j] == init[j];
      }
      hide NoPut;
    }
  }

  lemma RemovedSnoc(init: seq<Call>, c: Call)
    ensures Removed(init + [c]) <==> c.CallDelete? || (Removed(init) && !c.CallPut?)
  {
    var on := init + [c];
    assert on[|init|] == c && forall j :: 0 <= j < |init| ==> on[j] == init[j];
    if c.CallDelete? {
      assert on[|init|].CallDelete?;
    } else if Removed(init) && !c.CallPut? {
      var i :| 0 <= i < |init| && init[i].CallDelete? && forall j :: i < j < |init| ==> !init[j].CallPut?;
      assert on[i].CallDelete?;
    }
  }

  /** After any trace a key is absent exactly when a delete of it was not followed by a put, or when
      nothing was ever stored under it: counting only calls made while the connector was up. */
  lemma KeyAbsentExactly(s: Gated, calls: seq<Call>, k: string)
    ensures var on := CallsOn(s.state, calls, k);
      k !in Exec(s, calls).bucket <==> Removed(on) || (k !in s.bucket && NoPut(on))
  {
    hide Exec, CallsOn, Outcome, Removed, NoPut;
    TraceOnKey(s, calls, k);
    CallsOnMutate(s.state, calls, k);
    AbsentExactly(At(s.bucket, k), CallsOn(s.state, calls, k));
  }

  /** The methods of the connector perform these steps.  For the puts, the arguments carry the object
      and the dictionary of the call. */
  method Issue(conn: S3Connector, c: Call, metadata: array<Entry>, fp: TempFile?, sizes: seq<nat>)
    requires fp != null ==> fp.Valid() && Requests(sizes, |fp.bytes|)
    requires c.CallPut? ==>
      c.obj == Object(if fp == null then [] else Uploaded(fp.bytes, sizes), DictOf(metadata[..]))
    requires c.CallPutMetadata? ==> c.meta == DictOf(metadata[..])
    modifies conn, fp
    ensures Gated(conn.currentState, conn.bucket) == Apply(Gated(old(conn.currentState), old(conn.bucket)), c)
  {
    match c
    case CallInit(libraryOk, credentials) => var exited := conn.Init(libraryOk, credentials);
    case CallDeinit => conn.Deinit();
    case CallPut(name, obj) => conn.PutObject(name, metadata, fp, sizes);
    case CallPutMetadata(name, meta) => conn.PutObjectMetadata(name, metadata);
    case CallDelete(name) => conn.DeleteObject(name);
  }

  // ----- data -----

  lemma {:induction false} SumBound(sizes: seq<nat>, n: nat)
    requires Requests(sizes, n)
    ensures |sizes| <= n
    ensures sizes != [] ==> |sizes| - 1 + sizes[|sizes| - 1] <= n
  {
    if sizes != [] {
      SumBound(sizes[..|sizes| - 1], n - sizes[|sizes| - 1]);
    }
  }

  /** What is sent in general: one stretch for each buffer, as long as the buffer, and each of them the
      beginning of the file. */
  lemma {:induction false} UploadedStretch(bytes: seq<Byte>, sizes: seq<nat>, n: nat, j: nat)
    requires Requests(sizes, n) && n <= |bytes| && j < |sizes|
    ensures |Uploaded(bytes, sizes)| == n
    ensures SumOf(sizes[..j]) + sizes[j] <= n
    ensures Uploaded(bytes, sizes)[SumOf(sizes[..j])..SumOf(sizes[..j]) + sizes[j]] == bytes[..sizes[j]]
  {
    var init, last := sizes[..|sizes| - 1], sizes[|sizes| - 1];
    UploadedSnoc(bytes, sizes, n);
    var before := Uploaded(bytes, init);
    hide Uploaded, SumOf, Requests;
    if j == |sizes| - 1 {
      assert sizes[..j] == init;
      SliceOfSecond(before, bytes[..last]);
    } else {
      UploadedStretch(bytes, init, n - last, j);
      assert init[..j] == sizes[..j] && init[j] == sizes[j];
      SliceOfFirst(before, bytes[..last], SumOf(sizes[..j]), SumOf(sizes[..j]) + sizes[j]);
    }
  }

  lemma UploadedSnoc(bytes: seq<Byte>, sizes: seq<nat>, n: nat)
    requires Requests(sizes, n) && n <= |bytes| && sizes != []
    ensures var init, last := sizes[..|sizes| - 1], sizes[|sizes| - 1];
      && last <= n && SumOf(init) == n - last && Requests(init, n - last)
      && Uploaded(bytes, sizes) == Uploaded(bytes, init) + bytes[..last]
      && |Uploaded(bytes, init)| == n - last && |Uploaded(bytes, sizes)| == n
  {
    UploadedLength(bytes, sizes[..|sizes| - 1], n - sizes[|sizes| - 1]);
  }

  lemma SliceOfSecond(a: seq<Byte>, b: seq<Byte>)
    ensures (a + b)[|a|..|a| + |b|] == b
  {
  }

  lemma SliceOfFirst(a: seq<Byte>, b: seq<Byte>, lo: nat, hi: nat)
    requires lo <= hi <= |a|
    ensures (a + b)[lo..hi] == a[lo..hi]
  {
  }

  lemma {:induction false} UploadedLength(bytes: seq<Byte>, sizes: seq<nat>, n: nat)
    requires Requests(sizes, n) && n <= |bytes|
    ensures |Uploaded(bytes, sizes)| == n
  {
    if sizes != [] {
      UploadedLength(bytes, sizes[..|sizes| - 1], n - sizes[|sizes| - 1]);
    }
  }

  lemma OneBuffer(bytes: seq<Byte>, sizes: seq<nat>)
    requires Requests(sizes, |bytes|) && |sizes| <= 1
    ensures Uploaded(bytes, sizes) == bytes
  {
  }

  /** A file whose last byte differs from all others. */
  function Marked(n: nat): (bytes: seq<Byte>)
    requires n > 0
    ensures |bytes| == n
  {
    seq(n - 1, _ => 0 as Byte) + [1]
  }

  lemma SeveralBuffers(n: nat, sizes: seq<nat>)
    requires n > 0 && Requests(sizes, n) && |sizes| >= 2
    ensures Uploaded(Marked(n), sizes) != Marked(n)
  {
  }

  /** Because every read starts at the beginning, an upload is faithful for all files of a length
      exactly when the library asks for the data at most once. */
  lemma UploadIsFaithful(n: nat, sizes: seq<nat>)
    requires Requests(sizes, n)
    ensures (forall bytes :: |bytes| == n ==> Uploaded(bytes, sizes) == bytes) <==> |sizes| <= 1
  {
    if |sizes| <= 1 {
      forall bytes: seq<Byte> | |bytes| == n
        ensures Uploaded(bytes, sizes) == bytes
      {
        OneBuffer(bytes, sizes);
      }
    } else {
      SumBound(sizes, n);
      SeveralBuffers(n, sizes);
    }
  }

  /** Putting a file and getting it into an empty one: the metadata comes back, and so does a file that
      fits one buffer, however the download is cut. */
  method PutThenGet(conn: S3Connector, name: string, metadata: array<Entry>, fp: TempFile, sizes: seq<nat>,
                    got: array<Entry>, out: TempFile)
    returns (found: bool, count: nat)
    requires conn.currentState == Initialized
    requires fp.Valid() && Requests(sizes, |fp.bytes|)
    requires out != fp && out.Valid() && out.bytes == []
    requires got != metadata && metadata.Length <= got.Length
    modifies conn`bucket, fp, got, out
    ensures found && count <= got.Length && Lists(got[..count], DictOf(metadata[..]))
    ensures out.bytes == Uploaded(old(fp.bytes), sizes)
    ensures |sizes| <= 1 ==> out.bytes == old(fp.bytes)
  {
    DictSize(metadata[..]);
    conn.PutObject(name, metadata, fp, sizes);
    found, count := conn.GetObject(name, got, out);
    if |sizes| <= 1 {
      OneBuffer(old(fp.bytes), sizes);
    }
  }
}
