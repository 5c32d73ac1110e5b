/** s3_connector.c, listBucketCallback: the listing of a prefix arrives in batches, and the callback
    collects the base names in an array of 100 slots. */
module ListAccumulator {
  import opened CText
  import opened Listing

  const SLOTS: nat := 100

  /** The arguments of one callback. */
  datatype Batch = Batch(contents: seq<string>, prefixes: seq<string>)
  {
    function Size(): nat {
      |contents| + |prefixes|
    }

    function Names(): (ns: seq<string>)
      ensures |ns| == Size()
    {
      Bases(contents) + Bases(prefixes)
    }
  }

  // ----- what the callback makes of one batch -----

  /** The names in the slots below the count after one more batch.  An empty batch resets the count; a
      count of zero makes a batch the first one, whose first content is skipped -- or, when it has no
      contents, whose last prefix ends up behind the count. */
  function Collected(names: seq<string>, b: Batch): seq<string> {
    if b.Size() == 0 then []
    else if names != [] then names + b.Names()
    else if b.contents != [] then b.Names()[1..]
    else b.Names()[..b.Size() - 1]
  }

  /** How many slots the callback needs. */
  function SlotsNeeded(names: seq<string>, b: Batch): nat {
    if names != [] then |names| + b.Size()
    else if b.contents != [] then b.Size() - 1
    else b.Size()
  }

  /** All the slots filled so far, counted or not. */
  function Written(names: seq<string>, b: Batch): seq<string> {
    var from := if names == [] then 1 else 0;
    names + (if from <= |b.contents| then Bases(b.contents)[from..] else []) + Bases(b.prefixes)[0..]
  }

  lemma CollectedIsWritten(names: seq<string>, b: Batch)
    requires b.Size() > 0
    ensures |Written(names, b)| == SlotsNeeded(names, b)
    ensures (if names == [] then b.Size() - 1 else |names| + b.Size()) <= |Written(names, b)|
    ensures Collected(names, b) == Written(names, b)[..if names == [] then b.Size() - 1 else |names| + b.Size()]
  {
  }

  /** One of the two copy loops: the base names of keys[from..] go to the slots from `objIndex` on.
      The source does not check for the end of the array; a write behind it is an overrun here. */
  method AppendNames(objects: array<string>, objIndex: nat, keys: seq<string>, from: nat)
    returns (objIndex': nat, overrun: bool)
    requires objIndex <= objects.Length
    modifies objects
    ensures overrun <==> objIndex + (if from <= |keys| then |keys| - from else 0) > objects.Length
    ensures !overrun ==> objIndex' == objIndex + (if from <= |keys| then |keys| - from else 0)
    ensures !overrun ==> objIndex' <= objects.Length
    ensures !overrun ==>
      objects[..objIndex'] == old(objects[..objIndex]) + (if from <= |keys| then Bases(keys)[from..] else [])
  {
    objIndex' := objIndex;
    overrun := false;
    var i := from;
    while i < |keys|
      invariant from <= i && (from <= |keys| ==> i <= |keys|)
      invariant objIndex' == objIndex + (if from <= |keys| then i - from else 0) <= objects.Length
      invariant objects[..objIndex'] == old(objects[..objIndex]) + (if from <= |keys| then Bases(keys)[from..i] else [])
    {
      if objIndex' == objects.Length {
        return objIndex', true;
      }
      objects[objIndex'] := Basename(keys[i]);
      objIndex' := objIndex' + 1;
      i := i + 1;
    }
  }

  /** Both copy loops. */
  method CopyNames(objects: array<string>, objIndex: nat, b: Batch, startIndex: nat) returns (overrun: bool)
    requires objIndex <= objects.Length && startIndex == if objIndex == 0 then 1 else 0
    modifies objects
    ensures overrun <==> |Written(old(objects[..objIndex]), b)| > objects.Length
    ensures !overrun ==>
      objects[..|Written(old(objects[..objIndex]), b)|] == Written(old(objects[..objIndex]), b)
  {
    var i: nat;
    i, overrun := AppendNames(objects, objIndex, b.contents, startIndex);
    if overrun {
      return;
    }
    i, overrun := AppendNames(objects, i, b.prefixes, 0);
  }

  /** object_list */
  class ObjectList {
    var objects: array?<string>
    var objectCount: nat

    ghost predicate Valid()
      reads this
    {
      objectCount > 0 ==> objects != null && objects.Length == SLOTS && objectCount <= SLOTS
    }

    ghost function Names(): seq<string>
      requires Valid()
      reads this, objects
    {
      if objectCount == 0 then [] else objects[..objectCount]
    }

    constructor ()
      ensures Valid() && Names() == [] && objects == null
    {
      objects := null;
      objectCount := 0;
    }

    method ListBucketCallback(b: Batch) returns (overrun: bool)
      requires Valid()
      modifies this, objects
      ensures overrun <==> SlotsNeeded(old(Names()), b) > SLOTS
      ensures !overrun ==> Valid() && Names() == Collected(old(Names()), b)
      ensures objects == old(objects) || fresh(objects)
    {
      var contentsCount, commonPrefixesCount := |b.contents|, |b.prefixes|;
      if contentsCount + commonPrefixesCount == 0 {
        objectCount := 0;
        return false;
      }
      var objIndex, startIndex := 0, 0;
      if objectCount == 0 {
        startIndex := 1;
        objectCount := contentsCount + commonPrefixesCount - 1;
        objects := new string[SLOTS](_ => "");
      } else {
        objIndex := objectCount;
        objectCount := objectCount + contentsCount + commonPrefixesCount;
      }
      ghost var kept := objects[..objIndex];
      assert kept == old(Names());
      CollectedIsWritten(kept, b);
      hide Collected, SlotsNeeded, Written, Batch.Names, Bases;
      overrun := CopyNames(objects, objIndex, b, startIndex);
      if !overrun {
        assert objects[..objectCount] == objects[..|Written(kept, b)|][..objectCount];
      }
    }
  }
}
