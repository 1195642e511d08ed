/** How a file is cut into chunks and how the receiver checks the cut (frontend/src/fileTransfer.ts). */
module ChunkSplit {
  import opened Outcomes
  import opened Bytes
  import opened Sha256Spec
  import opened JsNumbers
  import opened IncrementalHash

  const MAX_TRANSFER_BYTES := 250 * 1024 * 1024
  const MAX_CHUNK_SIZE := 65536

  // The chunks the sending loop reads.
  function Split(file: Bytes, chunkSize: nat): seq<Bytes>
    requires chunkSize > 0
  {
    if file == [] then []
    else if |file| <= chunkSize then [file]
    else [file[..chunkSize]] + Split(file[chunkSize..], chunkSize)
  }

  function Lengths(chunks: seq<Bytes>): seq<nat> {
    seq(|chunks|, i requires 0 <= i < |chunks| => |chunks[i]|)
  }

  function Total(lengths: seq<nat>): nat {
    if lengths == [] then 0 else lengths[0] + Total(lengths[1..])
  }

  // The size test of handleChunk, after `received` of `count` bytes.
  predicate ChunkFits(received: int, length: int, count: int, chunkSize: int) {
    var remaining := count - received;
    && remaining > 0 && 0 < length <= chunkSize && length <= remaining
    && (length == remaining || length == chunkSize)
  }

  predicate AllFit(received: nat, lengths: seq<nat>, count: nat, chunkSize: nat)
    decreases |lengths|
  {
    lengths == [] || (ChunkFits(received, lengths[0], count, chunkSize)
        && AllFit(received + lengths[0], lengths[1..], count, chunkSize))
  }

  // As many full chunks as fit, then the rest.
  function CutLengths(count: nat, chunkSize: nat): seq<nat>
    requires chunkSize > 0
  {
    if count == 0 then [] else if count <= chunkSize then [count]
        else [chunkSize] + CutLengths(count - chunkSize, chunkSize)
  }

  lemma {:induction false} FittingIsCut(received: nat, lengths: seq<nat>, count: nat, chunkSize: nat)
    requires chunkSize > 0 && received <= count
    ensures AllFit(received, lengths, count, chunkSize) && received + Total(lengths) == count
       <==> lengths == CutLengths(count - received, chunkSize)
    decreases |lengths|
  {
    var cut := CutLengths(count - received, chunkSize);
    if lengths == [] {
    } else if ChunkFits(received, lengths[0], count, chunkSize) {
      FittingIsCut(received + lengths[0], lengths[1..], count, chunkSize);
      assert lengths == [lengths[0]] + lengths[1..];
      assert cut != [] && cut[0] == lengths[0];
      if lengths[0] == chunkSize && count - received > chunkSize {
        assert cut[1..] == CutLengths(count - received - chunkSize, chunkSize);
      } else {
        assert cut[1..] == [] && CutLengths(0, chunkSize) == [];
      }
      assert lengths == cut <==> lengths[1..] == cut[1..];
    } else if cut != [] {
      assert ChunkFits(received, cut[0], count, chunkSize);
    }
  }

  /** A list of chunk lengths passes the receiver's size test and reaches the declared count exactly when it is the list
      the sender's loop produces. */
  lemma {:induction false} ChunkSplitIsUnique(lengths: seq<nat>, count: nat, chunkSize: nat)
    requires chunkSize > 0
    ensures AllFit(0, lengths, count, chunkSize) && Total(lengths) == count <==> lengths == CutLengths(count, chunkSize)
  {
    FittingIsCut(0, lengths, count, chunkSize);
  }

  function CeilingOf(n: nat, d: nat): nat
    requires d > 0
  {
    (n + d - 1) / d
  }

  /** That list has ceil(count / chunkSize) entries, all full but possibly the last, which is not empty. */
  lemma {:induction false} CutShape(count: nat, chunkSize: nat)
    requires chunkSize > 0
    ensures var cut := CutLengths(count, chunkSize);
            && |cut| == CeilingOf(count, chunkSize)
            && Total(cut) == count
            && (forall i :: 0 <= i < |cut| - 1 ==> cut[i] == chunkSize)
            && (cut != [] ==> 0 < cut[|cut| - 1] <= chunkSize)
  {
    hide CeilingOf;
    CeilingStep(count, chunkSize);
    var cut := CutLengths(count, chunkSize);
    if count == 0 {
    } else if count <= chunkSize {
      assert cut[1..] == [];
    } else {
      CutShape(count - chunkSize, chunkSize);
      assert cut[1..] == CutLengths(count - chunkSize, chunkSize);
    }
  }

  lemma CeilingStep(n: nat, d: nat)
    requires d > 0
    ensures CeilingOf(n, d) == if n == 0 then 0 else if n <= d then 1 else CeilingOf(n - d, d) + 1
  {
    if 0 < n {
      OneQuotient(n - 1, d);
    }
  }

  lemma OneQuotient(x: nat, d: nat)
    requires d > 0
    ensures (x + d) / d == x / d + 1
  {
    var k := (x + d) / d - x / d - 1;
    assert k * d == x % d - (x + d) % d;
    SmallMultiple(k, d);
  }

  lemma SmallMultiple(k: int, d: int)
    requires 0 - d < k * d < d
    ensures k == 0
  {
    if k > 0 {
      GrowsWith(k, d);
    } else if k < 0 {
      GrowsWith(-k, d);
    }
  }

  lemma GrowsWith(k: int, d: int)
    requires k >= 1 && d >= 0
    ensures k * d >= d
  {
  }

  // A list that passes the size test never holds more than the declared count.
  lemma {:induction false} NeverOverfull(received: nat, lengths: seq<nat>, count: nat, chunkSize: nat)
    requires received <= count && AllFit(received, lengths, count, chunkSize)
    ensures received + Total(lengths) <= count
    decreases |lengths|
  {
    if lengths != [] {
      NeverOverfull(received + lengths[0], lengths[1..], count, chunkSize);
    }
  }

  lemma {:induction false} SplitIsCut(file: Bytes, chunkSize: nat)
    requires chunkSize > 0
    ensures Lengths(Split(file, chunkSize)) == CutLengths(|file|, chunkSize)
  {
    if |file| > chunkSize {
      SplitIsCut(file[chunkSize..], chunkSize);
      var s := Split(file, chunkSize);
      assert s[1..] == Split(file[chunkSize..], chunkSize);
      assert Lengths(s) == [chunkSize] + Lengths(s[1..]);
    }
  }

  lemma {:induction false} SplitJoins(file: Bytes, chunkSize: nat)
    requires chunkSize > 0
    ensures Join(Split(file, chunkSize)) == file
  {
    var s := Split(file, chunkSize);
    if file == [] {
    } else if |file| <= chunkSize {
      assert s[1..] == [];
    } else {
      SplitJoins(file[chunkSize..], chunkSize);
      assert s[1..] == Split(file[chunkSize..], chunkSize);
    }
  }

  // One turn of the sending loop takes the next chunk of the split.
  lemma {:induction false} NextChunk(file: Bytes, chunkSize: nat, offset: nat, n: nat)
    requires chunkSize > 0 && offset < |file| && n <= |Split(file, chunkSize)|
    requires Split(file, chunkSize)[n..] == Split(file[offset..], chunkSize)
    ensures var next := if offset + chunkSize < |file| then offset + chunkSize else |file|;
            && n < |Split(file, chunkSize)| && Split(file, chunkSize)[n] == file[offset..next]
            && Split(file, chunkSize)[n + 1..] == Split(file[next..], chunkSize)
  {
    var rest, s := file[offset..], Split(file, chunkSize);
    assert s[n..][0] == s[n] && s[n + 1..] == s[n..][1..];
    if |rest| > chunkSize {
      assert rest[..chunkSize] == file[offset..offset + chunkSize];
      assert rest[chunkSize..] == file[offset + chunkSize..];
    } else {
      assert rest == file[offset..|file|] && file[|file|..] == [];
    }
  }

  lemma {:induction false} NothingToSplit(chunkSize: nat)
    requires chunkSize > 0
    ensures Split([], chunkSize) == []
  {
  }

  /** The loop of sendFile: it emits exactly the split of the file and hashes exactly the file. */
  method CutAndHash(file: Bytes, chunkSize: nat) returns (chunks: seq<Bytes>, chunkCount: nat, digest: Bytes)
    requires 0 < chunkSize <= MAX_CHUNK_SIZE && |file| <= MAX_TRANSFER_BYTES
    ensures chunks == Split(file, chunkSize) && chunkCount == |chunks| && digest == Sha256(file)
  {
    hide Sha256, HashBlocks, Compress, Split, IncrementalSha256.Holds;
    var hash := new IncrementalSha256();
    var offset := 0;
    chunks, chunkCount := [], 0;
    assert file[0..] == file;
    while offset < |file|
      invariant offset <= |file| && chunkCount == |chunks| <= |Split(file, chunkSize)|
      invariant chunks == Split(file, chunkSize)[..chunkCount]
      invariant Split(file, chunkSize)[chunkCount..] == Split(file[offset..], chunkSize)
      invariant fresh(hash) && fresh(hash.state) && fresh(hash.buffer)
      invariant hash.Valid() && hash.finalDigest.None? && hash.input == file[..offset]
    {
      NextChunk(file, chunkSize, offset, chunkCount);
      var nextOffset := if offset + chunkSize < |file| then offset + chunkSize else |file|;
      var chunk := file[offset..nextOffset];
      var updated := hash.Update(chunk);
      assert file[..offset] + chunk == file[..nextOffset];
      chunks := chunks + [chunk];
      offset := nextOffset;
      chunkCount := chunkCount + 1;
    }
    assert file[offset..] == [] && file[..offset] == file;
    NothingToSplit(chunkSize);
    assert Split(file, chunkSize)[chunkCount..] == [] && chunks == Split(file, chunkSize);
    var result := hash.Digest();
    digest := result.value;
  }
}
