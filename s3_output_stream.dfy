/** The buffered writer that streams a file to S3 (S3OutputStream): bytes collect in a
    fixed-size buffer; each time the buffer is full it is uploaded as the next part of a
    multipart upload, started on the first such upload; closing uploads what is left and
    completes the upload, or, when no part was ever uploaded, stores the whole object with one
    put. The S3 client is modelled by the requests it receives. */
module S3Streaming {
  import opened Wrappers

  type byte = bv8

  const BUFFER_SIZE: int := 10000000

  /** A request sent to the S3 client. */
  datatype S3Request =
    | CreateMultipartUpload(bucket: string, key: string)
    | UploadPart(uploadId: string, partNumber: int, bytes: seq<byte>)
    | CompleteMultipartUpload(uploadId: string, partNumbers: seq<int>)
    | PutObject(bucket: string, key: string, bytes: seq<byte>)
    | AbortMultipartUpload(uploadId: string)

  /** The bytes of every uploaded part, in the order they were sent. */
  function UploadedBytes(requests: seq<S3Request>): seq<byte>
  {
    if |requests| == 0 then []
    else
      UploadedBytes(requests[..|requests| - 1]) +
      (if requests[|requests| - 1].UploadPart? then requests[|requests| - 1].bytes else [])
  }

  /** The part numbers of the uploaded parts, in the order they were sent. */
  function PartNumbers(requests: seq<S3Request>): seq<int>
  {
    if |requests| == 0 then []
    else
      PartNumbers(requests[..|requests| - 1]) +
      (if requests[|requests| - 1].UploadPart? then [requests[|requests| - 1].partNumber] else [])
  }

  /** Part numbers 1, 2, 3, ... */
  predicate Consecutive(partNumbers: seq<int>)
  {
    forall i :: 0 <= i < |partNumbers| ==> partNumbers[i] == i + 1
  }

  /** Requests of an upload still in progress: the upload was started, then only full
      buffers were uploaded. */
  predicate InProgress(requests: seq<S3Request>, bucket: string, key: string, uploadId: string)
  {
    |requests| > 0 && requests[0] == CreateMultipartUpload(bucket, key) &&
    forall i :: 1 <= i < |requests| ==> requests[i].UploadPart? && requests[i].uploadId == uploadId && |requests[i].bytes| == BUFFER_SIZE
  }

  /** The object S3 holds once the requests are done: the parts in order when the upload was
      completed, the bytes put when it was put, nothing before either. Requests after that
      (an abort of the finished upload) leave the object as it is. */
  function Stored(requests: seq<S3Request>): (r: Option<seq<byte>>)
    ensures r.Some? ==> exists i :: 0 <= i < |requests| && (requests[i].CompleteMultipartUpload? || requests[i].PutObject?)
  {
    if |requests| == 0 then None
    else
      match requests[|requests| - 1]
      case CompleteMultipartUpload(_, _) => Some(UploadedBytes(requests[..|requests| - 1]))
      case PutObject(_, _, bytes) => Some(bytes)
      case _ =>
        var r := Stored(requests[..|requests| - 1]);
        if r.Some? then
          var i :| 0 <= i < |requests| - 1 && (requests[..|requests| - 1][i].CompleteMultipartUpload? || requests[..|requests| - 1][i].PutObject?);
          assert requests[i] == requests[..|requests| - 1][i];
          r
        else r
  }

  /** An abort changes nothing S3 holds. */
  lemma AbortKeepsStored(requests: seq<S3Request>, uploadId: string)
    ensures Stored(requests + [AbortMultipartUpload(uploadId)]) == Stored(requests)
  {
    assert (requests + [AbortMultipartUpload(uploadId)])[..|requests|] == requests;
  }

  /** While an upload is in progress S3 holds no object. */
  lemma {:induction false} InProgressStoresNothing(requests: seq<S3Request>, bucket: string, key: string, uploadId: string)
    requires InProgress(requests, bucket, key, uploadId)
    ensures Stored(requests).None?
  {
    if |requests| > 1 {
      var init := requests[..|requests| - 1];
      assert InProgress(init, bucket, key, uploadId);
      InProgressStoresNothing(init, bucket, key, uploadId);
    }
  }

  /** Sending one more part adds its bytes and its number at the end, and nothing else
      changes what was uploaded. */
  lemma UploadAppends(requests: seq<S3Request>, r: S3Request)
    ensures UploadedBytes(requests + [r]) == UploadedBytes(requests) + (if r.UploadPart? then r.bytes else [])
    ensures PartNumbers(requests + [r]) == PartNumbers(requests) + (if r.UploadPart? then [r.partNumber] else [])
    ensures r.UploadPart? ==> |PartNumbers(requests + [r])| == |PartNumbers(requests)| + 1
  {
    assert (requests + [r])[..|requests|] == requests;
  }

  lemma SliceSplit(s: seq<byte>, a: int, b: int, c: int)
    requires 0 <= a <= b <= c <= |s|
    ensures s[a..c] == s[a..b] + s[b..c]
  {
  }

  /** Completing an upload stores the uploaded bytes and uploads no part. */
  lemma CompleteStores(requests: seq<S3Request>, complete: S3Request)
    requires complete.CompleteMultipartUpload?
    ensures Stored(requests + [complete]) == Some(UploadedBytes(requests))
    ensures PartNumbers(requests + [complete]) == PartNumbers(requests)
  {
    UploadAppends(requests, complete);
    assert (requests + [complete])[..|requests|] == requests;
  }

  /** Every uploaded part of an upload in progress is a full buffer, so the bytes uploaded
      are a whole number of buffers. */
  lemma {:induction false} InProgressFullParts(requests: seq<S3Request>, bucket: string, key: string, uploadId: string)
    requires InProgress(requests, bucket, key, uploadId)
    ensures |UploadedBytes(requests)| == BUFFER_SIZE * |PartNumbers(requests)|
    ensures |PartNumbers(requests)| == |requests| - 1
  {
    if |requests| > 1 {
      var init := requests[..|requests| - 1];
      assert InProgress(init, bucket, key, uploadId);
      InProgressFullParts(init, bucket, key, uploadId);
      assert requests == init + [requests[|requests| - 1]];
      UploadAppends(init, requests[|requests| - 1]);
    } else {
      assert requests == [] + [requests[0]];
      UploadAppends([], requests[0]);
    }
  }

  class S3OutputStream {
    const bucket: string
    const key: string
    /** The id the client gives the multipart upload when it is started. */
    const issuedUploadId: string
    const buf: array<byte>
    var position: int
    var uploadId: Option<string>
    var completedParts: seq<int>
    var open: bool
    /** The requests the client has received. */
    var requests: seq<S3Request>
    /** Every byte written to the stream so far. */
    ghost var written: seq<byte>

    ghost predicate Valid()
      reads this, buf
    {
      buf.Length == BUFFER_SIZE && 0 <= position <= BUFFER_SIZE &&
      completedParts == PartNumbers(requests) && Consecutive(completedParts) &&
      (open ==> UploadedBytes(requests) + buf[..position] == written) &&
      (open && uploadId.None? ==> requests == []) &&
      (open && uploadId.Some? ==> uploadId == Some(issuedUploadId) && InProgress(requests, bucket, key, issuedUploadId))
    }

    constructor (bucket: string, key: string, issuedUploadId: string)
      ensures Valid() && fresh(buf)
      ensures this.bucket == bucket && this.key == key && this.issuedUploadId == issuedUploadId
      ensures open && position == 0 && uploadId == None && requests == [] && written == []
    {
      this.bucket := bucket;
      this.key := key;
      this.issuedUploadId := issuedUploadId;
      buf := new byte[BUFFER_SIZE];
      position := 0;
      uploadId := None;
      completedParts := [];
      open := true;
      requests := [];
      written := [];
    }

    /** The bytes written and not yet uploaded. */
    ghost function Pending(): seq<byte>
      reads this, buf
      requires Valid()
    {
      buf[..position]
    }

    /** uploadPart: the buffer up to the position goes up as the next part. */
    method UploadPartOfBuffer()
      requires Valid() && uploadId.Some?
      modifies this
      ensures position == old(position) && uploadId == old(uploadId) && open == old(open) && written == old(written)
      ensures requests == old(requests) + [UploadPart(uploadId.value, |old(completedParts)| + 1, buf[..position])]
      ensures completedParts == PartNumbers(requests) && Consecutive(completedParts)
      ensures UploadedBytes(requests) == old(UploadedBytes(requests)) + old(buf[..position])
    {
      var partNumber := |completedParts| + 1;
      var part := UploadPart(uploadId.value, partNumber, buf[..position]);
      UploadAppends(requests, part);
      requests := requests + [part];
      completedParts := completedParts + [partNumber];
    }

    /** flushBufferAndRewind, called with a full buffer: start the upload if needed, upload the
        buffer, and start it again from the beginning. */
    method FlushBufferAndRewind()
      requires Valid() && open && position == BUFFER_SIZE
      modifies this
      ensures Valid() && open && position == 0 && written == old(written) && uploadId == Some(issuedUploadId)
    {
      if uploadId.None? {
        UploadAppends(requests, CreateMultipartUpload(bucket, key));
        requests := requests + [CreateMultipartUpload(bucket, key)];
        uploadId := Some(issuedUploadId);
      }
      ghost var before := requests;
      UploadPartOfBuffer();
      assert InProgress(requests, bucket, key, issuedUploadId) by {
        assert requests == before + [requests[|requests| - 1]];
      }
      position := 0;
    }

    /** Copies n bytes of data, from ofs on, into the buffer at the position. */
    method CopyIntoBuffer(data: seq<byte>, ofs: int, n: int)
      requires Valid() && open && 0 <= ofs && 0 <= n && ofs + n <= |data| && position + n <= BUFFER_SIZE
      modifies buf
      ensures buf[..position + n] == old(buf[..position]) + data[ofs..ofs + n]
    {
      forall k | 0 <= k < n {
        buf[position + k] := data[ofs + k];
      }
      assert buf[..position] == old(buf[..position]);
    }

    /** write(byteArray, o, l): fills the buffer, uploading it each time it is full, and
        throws on a closed stream. */
    method Write(byteArray: seq<byte>, o: int, l: int) returns (r: Result<()>)
      requires Valid() && 0 <= o && 0 <= l && o + l <= |byteArray|
      modifies this, buf
      ensures Valid()
      ensures r.Err? <==> !old(open)
      ensures r.Err? ==> unchanged(this) && unchanged(buf)
      ensures r.Ok? ==> open && written == old(written) + byteArray[o..o + l]
    {
      if !open {
        return Err("IllegalStateException: Closed");
      }
      ghost var target := written + byteArray[o..o + l];
      var ofs := o;
      var len := l;
      while len > BUFFER_SIZE - position
        invariant Valid() && open
        invariant o <= ofs && 0 <= len && ofs + len == o + l
        invariant written + byteArray[ofs..ofs + len] == target
        decreases len, position
      {
        var size := BUFFER_SIZE - position;
        ghost var before := written;
        FillAndFlush(byteArray, ofs, size);
        Regroup(before, byteArray, ofs, ofs + size, ofs + len, target);
        ofs := ofs + size;
        len := len - size;
      }
      Append(byteArray, ofs, len);
      return Ok(());
    }

    /** Moving the first bytes of what is left to write onto what was written keeps the
        total. */
    lemma Regroup(before: seq<byte>, data: seq<byte>, ofs: int, mid: int, end: int, target: seq<byte>)
      requires 0 <= ofs <= mid <= end <= |data| && before + data[ofs..end] == target
      ensures (before + data[ofs..mid]) + data[mid..end] == target
    {
      SliceSplit(data, ofs, mid, end);
    }

    /** One round of write's loop: the first `size` bytes fill the buffer, which is then
        uploaded. */
    method FillAndFlush(data: seq<byte>, ofs: int, size: int)
      requires Valid() && open && 0 <= ofs && 0 <= size && ofs + size <= |data| && position + size == BUFFER_SIZE
      modifies this, buf
      ensures Valid() && open && position == 0
      ensures written == old(written) + data[ofs..ofs + size]
    {
      Append(data, ofs, size);
      FlushBufferAndRewind();
    }

    /** The tail of write: the bytes fit in the buffer. */
    method Append(data: seq<byte>, ofs: int, n: int)
      requires Valid() && open && 0 <= ofs && 0 <= n && ofs + n <= |data| && position + n <= BUFFER_SIZE
      modifies this, buf
      ensures Valid() && open && position == old(position) + n
      ensures written == old(written) + data[ofs..ofs + n]
      ensures requests == old(requests) && uploadId == old(uploadId)
    {
      CopyIntoBuffer(data, ofs, n);
      written := written + data[ofs..ofs + n];
      position := position + n;
    }

    /** write(int): the low eight bits of b, after uploading a full buffer. */
    method WriteByte(b: int) returns (r: Result<()>)
      requires Valid()
      modifies this, buf
      ensures Valid()
      ensures r.Err? <==> !old(open)
      ensures r.Err? ==> unchanged(this) && unchanged(buf)
      ensures r.Ok? ==> open && written == old(written) + [(b % 256) as byte]
    {
      if !open {
        return Err("IllegalStateException: Closed");
      }
      if position >= BUFFER_SIZE {
        FlushBufferAndRewind();
      }
      buf[position] := (b % 256) as byte;
      written := written + [(b % 256) as byte];
      position := position + 1;
      return Ok(());
    }

    /** flush only checks that the stream is open. */
    method Flush() returns (r: Result<()>)
      requires Valid()
      ensures r.Err? <==> !open
    {
      if !open {
        return Err("IllegalStateException: Closed");
      }
      return Ok(());
    }

    /** close: the first call uploads what is left and completes the upload, or puts the
        whole object when no part was uploaded; later calls do nothing. Either way S3 then
        holds exactly the bytes written. */
    method Close()
      requires Valid()
      modifies this
      ensures Valid() && !open
      ensures !old(open) ==> unchanged(this)
      ensures old(open) ==> Stored(requests) == Some(written)
      ensures old(open) && old(uploadId).None? ==> requests == [PutObject(bucket, key, old(buf[..position]))]
      ensures old(open) && old(uploadId).Some? ==> requests[|requests| - 1] == CompleteMultipartUpload(issuedUploadId, completedParts)
    {
      if open {
        open := false;
        if uploadId.Some? {
          if position > 0 {
            UploadPartOfBuffer();
          } else {
            assert buf[..position] == [];
          }
          assert UploadedBytes(requests) == written;
          var complete := CompleteMultipartUpload(uploadId.value, completedParts);
          CompleteStores(requests, complete);
          requests := requests + [complete];
        } else {
          assert requests == [] && written == buf[..position];
          var put := PutObject(bucket, key, buf[..position]);
          UploadAppends([], put);
          requests := [put];
        }
      }
    }

    /** cancel: the stream closes and a started upload is aborted. Cancelling an open stream
        leaves S3 without the object; cancelling a closed one sends an abort for the finished
        upload, which leaves the stored object as it was. */
    method Cancel()
      requires Valid()
      modifies this
      ensures Valid() && !open
      ensures written == old(written) && position == old(position)
      ensures old(uploadId).Some? ==> requests == old(requests) + [AbortMultipartUpload(old(uploadId).value)]
      ensures old(uploadId).None? ==> requests == old(requests)
      ensures Stored(requests) == old(Stored(requests))
      ensures old(open) ==> Stored(requests).None?
    {
      if open && uploadId.Some? {
        InProgressStoresNothing(requests, bucket, key, issuedUploadId);
      }
      open := false;
      if uploadId.Some? {
        var abort := AbortMultipartUpload(uploadId.value);
        UploadAppends(requests, abort);
        AbortKeepsStored(requests, uploadId.value);
        requests := requests + [abort];
      }
    }
  }
}
