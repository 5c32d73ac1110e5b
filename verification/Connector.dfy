/** s3_connector.c: the gated operations on one bucket, and the callbacks that move metadata and data
    between the store and the caller.  The store itself (libs3) is a map from keys to objects. */
module Connector {
  import opened CloudStructures
  import opened ListAccumulator
  import BatchLaws

  newtype Byte = n: int | 0 <= n < 256

  /** An object's user metadata is a set of name/value pairs; the store keeps no order of them. */
  datatype Object = Object(data: seq<Byte>, meta: Dict)

  type Bucket = map<string, Object>

  datatype State = Deinitialized | Initialized

  // ----- temporary files -----

  function Min(a: nat, b: nat): nat {
    if a < b then a else b
  }

  /** The bytes of a stream after writing `buffer` at a position. */
  function Overwritten(bytes: seq<Byte>, pos: nat, buffer: seq<Byte>): seq<Byte>
    requires pos <= |bytes|
  {
    bytes[..pos] + buffer + bytes[Min(pos + |buffer|, |bytes|)..]
  }

  /** Byte by byte: the buffer from the position on, all else as it was, and no byte moved. */
  lemma OverwrittenBytes(bytes: seq<Byte>, pos: nat, buffer: seq<Byte>)
    requires pos <= |bytes|
    ensures var r := Overwritten(bytes, pos, buffer);
      && |r| == (if pos + |buffer| <= |bytes| then |bytes| else pos + |buffer|)
      && forall i :: 0 <= i < |r| ==> r[i] == if pos <= i < pos + |buffer| then buffer[i - pos] else bytes[i]
  {
  }

  lemma OverwrittenByNothing(bytes: seq<Byte>, pos: nat)
    requires pos <= |bytes|
    ensures Overwritten(bytes, pos, []) == bytes
  {
  }

  lemma OverwrittenTwice(bytes: seq<Byte>, pos: nat, a: seq<Byte>, b: seq<Byte>)
    requires pos <= |bytes|
    ensures pos + |a| <= |Overwritten(bytes, pos, a)|
    ensures Overwritten(Overwritten(bytes, pos, a), pos + |a|, b) == Overwritten(bytes, pos, a + b)
  {
    var once := Overwritten(bytes, pos, a);
    assert once[..pos + |a|] == bytes[..pos] + a;
    assert once[Min(pos + |a| + |b|, |once|)..] == bytes[Min(pos + |a| + |b|, |bytes|)..];
  }

  /** A stdio stream opened with "w+": its bytes and its position. */
  class TempFile {
    var bytes: seq<Byte>
    var pos: nat

    ghost predicate Valid()
      reads this
    {
      pos <= |bytes|
    }

    constructor ()
      ensures Valid() && bytes == [] && pos == 0
    {
      bytes := [];
      pos := 0;
    }

    method Write(buffer: seq<Byte>)
      requires Valid()
      modifies this
      ensures Valid() && pos == old(pos) + |buffer|
      ensures bytes == Overwritten(old(bytes), old(pos), buffer)
    {
      var after := pos + |buffer|;
      bytes := bytes[..pos] + buffer + bytes[Min(after, |bytes|)..];
      pos := after;
    }

    method Read(size: nat) returns (buffer: seq<Byte>)
      requires Valid()
      modifies this`pos
      ensures Valid() && buffer == bytes[old(pos)..Min(old(pos) + size, |bytes|)] && pos == old(pos) + |buffer|
    {
      var end := Min(pos + size, |bytes|);
      buffer := bytes[pos..end];
      pos := end;
    }

    method Rewind()
      modifies this`pos
      ensures pos == 0
    {
      pos := 0;
    }

    method SeekEnd()
      modifies this`pos
      ensures pos == |bytes|
    {
      pos := |bytes|;
    }
  }

  // ----- callbacks -----

  /** _getObjectDataCallback writes a chunk where the stream stands. */
  method GetObjectDataCallback(buffer: seq<Byte>, fp: TempFile)
    requires fp.Valid()
    modifies fp
    ensures fp.Valid() && fp.pos == old(fp.pos) + |buffer|
    ensures fp.bytes == Overwritten(old(fp.bytes), old(fp.pos), buffer)
  {
    fp.Write(buffer);
  }

  /** _putObjectDataCallback rewinds the file before each read. */
  method PutObjectDataCallback(bufferSize: nat, fp: TempFile) returns (buffer: seq<Byte>)
    requires fp.Valid()
    modifies fp`pos
    ensures fp.Valid() && buffer == fp.bytes[..Min(bufferSize, |fp.bytes|)]
  {
    fp.Rewind();
    buffer := fp.Read(bufferSize);
  }

  /** _responsePropertiesCallback copies the pairs of the response over the caller's array. */
  method ResponsePropertiesCallback(properties: seq<Entry>, metadata: array<Entry>) returns (metadataCount: nat)
    requires |properties| <= metadata.Length
    modifies metadata
    ensures metadataCount == |properties|
    ensures metadata[..] == properties + old(metadata[|properties|..])
  {
    var i := 0;
    while i < |properties|
      invariant 0 <= i <= |properties|
      invariant forall j :: 0 <= j < i ==> metadata[j] == properties[j]
      invariant forall j :: i <= j < metadata.Length ==> metadata[j] == old(metadata[j])
    {
      metadata[i] := properties[i];
      i := i + 1;
    }
    metadataCount := |properties|;
  }

  // ----- chunks -----

  function Concat(chunks: seq<seq<Byte>>): seq<Byte> {
    if chunks == [] then [] else Concat(chunks[..|chunks| - 1]) + chunks[|chunks| - 1]
  }

  lemma ConcatNext(chunks: seq<seq<Byte>>, i: nat)
    requires i < |chunks|
    ensures Concat(chunks[..i + 1]) == Concat(chunks[..i]) + chunks[i]
  {
    assert chunks[..i + 1][..i] == chunks[..i];
  }

  /** A way in which the library may hand over the data of an object. */
  predicate CutInto(data: seq<Byte>, chunks: seq<seq<Byte>>) {
    Concat(chunks) == data
  }

  lemma SingleChunk(data: seq<Byte>)
    ensures CutInto(data, [data])
  {
  }

  function SumOf(sizes: seq<nat>): nat {
    if sizes == [] then 0 else SumOf(sizes[..|sizes| - 1]) + sizes[|sizes| - 1]
  }

  /** The buffers the library offers for an upload of `n` bytes: none empty, together `n`. */
  ghost predicate Requests(sizes: seq<nat>, n: nat) {
    SumOf(sizes) == n && forall i :: 0 <= i < |sizes| ==> sizes[i] > 0
  }

  /** What an upload sends when every read starts at the beginning of the file. */
  function Uploaded(bytes: seq<Byte>, sizes: seq<nat>): seq<Byte> {
    if sizes == [] then []
    else Uploaded(bytes, sizes[..|sizes| - 1]) + bytes[..Min(sizes[|sizes| - 1], |bytes|)]
  }

  // ----- effects on the bucket -----

  function AfterPut(b: Bucket, name: string, obj: Object): Bucket {
    b[name := obj]
  }

  /** Copying an object onto itself with new metadata; a missing source is an error of the store. */
  function AfterPutMetadata(b: Bucket, name: string, meta: Dict): Bucket {
    if name in b then b[name := b[name].(meta := meta)] else b
  }

  function AfterDelete(b: Bucket, name: string): Bucket {
    b - {name}
  }

  /** The static `current_state` together with the bucket behind the credentials. */
  class S3Connector {
    var currentState: State
    var bucket: Bucket

    constructor (bucket: Bucket)
      ensures currentState == Deinitialized && this.bucket == bucket
    {
      currentState := Deinitialized;
      this.bucket := bucket;
    }

    /** s3_init_connector: fails quietly when the library does, and exits without credentials. */
    method Init(libraryOk: bool, credentials: bool) returns (exited: bool)
      modifies this`currentState
      ensures exited <==> libraryOk && !credentials
      ensures currentState == if libraryOk && credentials then Initialized else old(currentState)
    {
      if !libraryOk {
        return false;
      }
      if !credentials {
        return true;
      }
      currentState := Initialized;
      return false;
    }

    method Deinit()
      modifies this`currentState
      ensures currentState == Deinitialized
    {
      currentState := Deinitialized;
    }

    method DeleteObject(name: string)
      modifies this`bucket
      ensures bucket == if currentState == Initialized then AfterDelete(old(bucket), name) else old(bucket)
      ensures currentState == Initialized ==> bucket.Keys == old(bucket).Keys - {name}
      ensures forall k :: k in bucket ==> k in old(bucket) && bucket[k] == old(bucket)[k]
    {
      if currentState != Initialized {
        return;
      }
      bucket := bucket - {name};
    }

    method PutObjectMetadata(name: string, metadata: array<Entry>)
      modifies this`bucket
      ensures bucket == if currentState == Initialized then AfterPutMetadata(old(bucket), name, DictOf(metadata[..]))
                        else old(bucket)
      ensures bucket.Keys == old(bucket).Keys
      ensures forall k :: k in bucket && (k != name || currentState != Initialized) ==> bucket[k] == old(bucket)[k]
      ensures currentState == Initialized && name in bucket ==>
        bucket[name].meta == DictOf(metadata[..]) && bucket[name].data == old(bucket)[name].data
    {
      if currentState != Initialized {
        return;
      }
      if name in bucket {
        bucket := bucket[name := bucket[name].(meta := DictOf(metadata[..]))];
      }
    }

    /** s3_put_object announces the length of the file and sends what the put callback reads. */
    method PutObject(name: string, metadata: array<Entry>, fp: TempFile?, sizes: seq<nat>)
      requires fp != null ==> fp.Valid() && Requests(sizes, |fp.bytes|)
      modifies this`bucket, fp
      ensures fp != null ==> fp.Valid() && fp.bytes == old(fp.bytes)
      ensures bucket ==
        if currentState == Initialized
        then AfterPut(old(bucket), name,
                      Object(if fp == null then [] else Uploaded(fp.bytes, sizes), DictOf(metadata[..])))
        else old(bucket)
      ensures currentState == Initialized ==> bucket.Keys == old(bucket).Keys + {name}
      ensures forall k :: k in old(bucket) && k != name ==> k in bucket && bucket[k] == old(bucket)[k]
    {
      if currentState != Initialized {
        return;
      }
      var sent := [];
      if fp != null {
        fp.SeekEnd();
        var filesize := fp.pos;
        fp.Rewind();
        var i := 0;
        while i < |sizes|
          invariant 0 <= i <= |sizes| && fp.Valid() && fp.bytes == old(fp.bytes)
          invariant bucket == old(bucket)
          invariant sent == Uploaded(fp.bytes, sizes[..i])
        {
          var buffer := PutObjectDataCallback(sizes[i], fp);
          assert sizes[..i + 1][..i] == sizes[..i];
          sent := sent + buffer;
          i := i + 1;
        }
        assert sizes[..i] == sizes;
      }
      bucket := bucket[name := Object(sent, DictOf(metadata[..]))];
    }

    /** s3_get_object_metadata: nothing is filled in when the gate is closed or the key is missing.
        The pairs have to fit the caller's array. */
    method GetObjectMetadata(name: string, metadata: array<Entry>) returns (filled: bool, metadataCount: nat)
      requires name in bucket ==> |bucket[name].meta| <= metadata.Length
      modifies metadata
      ensures filled <==> currentState == Initialized && name in bucket
      ensures filled ==> metadataCount == |bucket[name].meta|
      ensures filled ==> metadata[metadataCount..] == old(metadata[|bucket[name].meta|..])
      ensures filled ==> Lists(metadata[..metadataCount], bucket[name].meta)
      ensures !filled ==> metadata[..] == old(metadata[..])
    {
      if currentState != Initialized {
        return false, 0;
      }
      filled, metadataCount := RespondWithMetadata(name, metadata);
    }

    /** The response headers of the store: the pairs of the object in any order it likes. */
    method RespondWithMetadata(name: string, metadata: array<Entry>) returns (found: bool, metadataCount: nat)
      requires name in bucket ==> |bucket[name].meta| <= metadata.Length
      modifies metadata
      ensures found <==> name in bucket
      ensures found ==> metadataCount == |bucket[name].meta|
      ensures found ==> metadata[metadataCount..] == old(metadata[|bucket[name].meta|..])
      ensures found ==> Lists(metadata[..metadataCount], bucket[name].meta)
      ensures !found ==> metadata[..] == old(metadata[..])
    {
      found, metadataCount := name in bucket, 0;
      if found {
        ghost var listing := ListingExists(bucket[name].meta);
        var properties: seq<Entry> :| Lists(properties, bucket[name].meta);
        assert Lists(properties, bucket[name].meta);
        ListingSize(properties);
        metadataCount := ResponsePropertiesCallback(properties, metadata);
        assert metadata[..metadataCount] == properties;
      }
    }

    /** s3_get_object has no gate: it reads in either state, and writes the data where the stream
        stands. */
    method GetObject(name: string, metadata: array<Entry>, fp: TempFile) returns (found: bool, metadataCount: nat)
      requires name in bucket ==> |bucket[name].meta| <= metadata.Length
      requires fp.Valid()
      modifies metadata, fp
      ensures found <==> name in bucket
      ensures found ==> metadataCount == |bucket[name].meta|
      ensures found ==> metadata[metadataCount..] == old(metadata[|bucket[name].meta|..])
      ensures found ==> Lists(metadata[..metadataCount], bucket[name].meta)
      ensures found ==> fp.bytes == Overwritten(old(fp.bytes), old(fp.pos), bucket[name].data)
      ensures !found ==> metadata[..] == old(metadata[..]) && fp.bytes == old(fp.bytes)
    {
      found, metadataCount := RespondWithMetadata(name, metadata);
      if found {
        DownloadData(bucket[name].data, fp);
      }
    }

    /** The data of a response, cut into chunks in any way. */
    method DownloadData(data: seq<Byte>, fp: TempFile)
      requires fp.Valid()
      modifies fp
      ensures fp.Valid() && fp.bytes == Overwritten(old(fp.bytes), old(fp.pos), data)
    {
      SingleChunk(data);
      var chunks: seq<seq<Byte>> :| CutInto(data, chunks);
      assert CutInto(data, chunks);
      OverwrittenByNothing(fp.bytes, fp.pos);
      assert chunks[..0] == [] && Concat([]) == [];
      hide Overwritten, Concat;
      var i := 0;
      while i < |chunks|
        invariant 0 <= i <= |chunks|
        invariant fp.Valid() && fp.pos == old(fp.pos) + |Concat(chunks[..i])|
        invariant fp.bytes == Overwritten(old(fp.bytes), old(fp.pos), Concat(chunks[..i]))
      {
        OverwrittenTwice(old(fp.bytes), old(fp.pos), Concat(chunks[..i]), chunks[i]);
        ConcatNext(chunks, i);
        GetObjectDataCallback(chunks[i], fp);
        i := i + 1;
      }
      assert chunks[..i] == chunks;
    }

    /** s3_list_objects: one callback for each batch the library delivers. */
    method ListObjects(objects: ObjectList, batches: seq<Batch>) returns (overrun: bool)
      requires objects.Valid() && objects.objects == null && objects.Names() == []
      modifies objects
      ensures overrun <==> currentState == Initialized && !BatchLaws.Fits([], batches)
      ensures !overrun ==> objects.Valid()
      ensures !overrun ==> objects.Names() == if currentState == Initialized then BatchLaws.Run([], batches) else []
    {
      if currentState != Initialized {
        return false;
      }
      var i := 0;
      assert batches[0..] == batches;
      while i < |batches|
        invariant 0 <= i <= |batches| && objects.Valid()
        invariant objects.objects == null || fresh(objects.objects)
        invariant BatchLaws.Fits(objects.Names(), batches[i..]) <==> BatchLaws.Fits([], batches)
        invariant BatchLaws.Run(objects.Names(), batches[i..]) == BatchLaws.Run([], batches)
      {
        assert batches[i..][0] == batches[i] && batches[i..][1..] == batches[i + 1..];
        overrun := objects.ListBucketCallback(batches[i]);
        if overrun {
          return;
        }
        i := i + 1;
      }
      overrun := false;
    }
  }
}
