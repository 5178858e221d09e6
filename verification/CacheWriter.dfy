/** Writing the cache file in one pass: a placeholder header, the hashed body, then the header again. */
module CacheWriter {
  import opened Options
  import opened Words
  import opened CacheHeader
  import opened InputHealth
  import opened GenerationCache

  /** A file being written at a position, as a writer sees it. */
  class OpenFile {
    var content: Bytes
    var position: nat

    constructor ()
      ensures content == [] && position == 0
    {
      content, position := [], 0;
    }

    /** Overwrites from the position, and extends the file where it ends. */
    method WriteAll(bytes: Bytes)
      requires position <= |content|
      modifies this
      ensures position == old(position) + |bytes| <= |content|
      ensures content == old(content)[..old(position)] + bytes
                         + if old(position) + |bytes| > |old(content)| then []
                           else old(content)[old(position) + |bytes|..]
    {
      content := content[..position] + bytes
                 + if position + |bytes| <= |content| then content[position + |bytes|..] else [];
      position := position + |bytes|;
    }

    method SeekToStart()
      modifies this
      ensures position == 0 && content == old(content)
    {
      position := 0;
    }
  }

  /** A writer that hashes what passes through and refuses to pass its limit. */
  class DigestingWriter {
    const inner: OpenFile
    const limit: nat
    var hashed: Bytes
    var bytesWritten: nat

    ghost predicate Valid()
      reads this, inner
    {
      && bytesWritten == |hashed| <= limit
      && inner.position == |inner.content|
      && |hashed| <= |inner.content|
      && inner.content[|inner.content| - |hashed|..] == hashed
    }

    constructor (inner: OpenFile, limit: nat)
      requires inner.position == |inner.content|
      ensures Valid() && this.inner == inner && this.limit == limit && hashed == []
    {
      this.inner, this.limit := inner, limit;
      hashed, bytesWritten := [], 0;
    }

    /** The file may take fewer bytes than offered; exactly those are hashed. */
    method Write(bytes: Bytes, taken: nat) returns (written: Option<nat>)
      requires Valid() && taken <= |bytes|
      modifies this, inner
      ensures Valid()
      ensures written.None? <==> old(bytesWritten) + |bytes| > limit
      ensures written.None? ==> hashed == old(hashed) && inner.content == old(inner.content)
      ensures written.Some? ==> written.value == taken && hashed == old(hashed) + bytes[..taken]
                                && inner.content == old(inner.content) + bytes[..taken]
    {
      if bytesWritten + |bytes| > limit {
        return None;
      }
      inner.WriteAll(bytes[..taken]);
      hashed := hashed + bytes[..taken];
      bytesWritten := bytesWritten + taken;
      assert inner.content == old(inner.content) + bytes[..taken];
      written := Some(taken);
    }

    method Finish(hash: Hash) returns (len: nat, digest: Digest)
      requires Valid()
      ensures len == |hashed| && digest == hash(hashed)
    {
      len, digest := bytesWritten, hash(hashed);
    }
  }

  /** Replaces the placeholder by a header of its length. */
  method Rewrite(f: OpenFile, header: Bytes, placeholder: Bytes, ghost body: Bytes)
    requires f.content == placeholder + body && |header| == |placeholder|
    modifies f
    ensures f.content == header + body
  {
    f.SeekToStart();
    f.WriteAll(header);
    assert f.content == header + body;
  }

  function Concat(chunks: seq<Bytes>): Bytes {
    if |chunks| == 0 then [] else Concat(chunks[..|chunks| - 1]) + chunks[|chunks| - 1]
  }

  lemma {:induction false} ConcatPrefix(chunks: seq<Bytes>, k: nat)
    requires k <= |chunks|
    ensures |Concat(chunks[..k])| <= |Concat(chunks)|
  {
    if k == |chunks| {
      assert chunks[..k] == chunks;
    } else {
      ConcatPrefix(chunks[..|chunks| - 1], k);
      assert chunks[..|chunks| - 1][..k] == chunks[..k];
    }
  }

  lemma ConcatStep(chunks: seq<Bytes>, k: nat, before: Bytes)
    requires k < |chunks|
    ensures Concat(chunks[..k + 1]) == Concat(chunks[..k]) + chunks[k]
    ensures before + Concat(chunks[..k + 1]) == before + Concat(chunks[..k]) + chunks[k]
    ensures |Concat(chunks[..k + 1])| <= |Concat(chunks)|
  {
    assert chunks[..k + 1][..k] == chunks[..k];
    ConcatPrefix(chunks, k + 1);
  }

  /**
   * The file a save produces: the header that describes the body, then the body. `template`
   * carries the fields known before the body is written. Fails exactly when the body is over
   * the limit.
   */
  method WriteCacheFile(template: Header, hash: Hash, chunks: seq<Bytes>, limit: nat) returns (file: Option<Bytes>)
    ensures file.Some? <==> |Concat(chunks)| <= limit
    ensures file.Some? ==>
              file.value == Encode(template.(bodyLen := |Concat(chunks)|, bodyDigest := hash(Concat(chunks))), hash)
                            + Concat(chunks)
  {
    var f := new OpenFile();
    f.WriteAll(Zeros(HEADER_LEN));
    assert f.content == Zeros(HEADER_LEN);
    var w := new DigestingWriter(f, limit);
    for k := 0 to |chunks|
      invariant w.Valid() && w.inner == f && w.limit == limit && fresh(w) && fresh(f)
      invariant w.hashed == Concat(chunks[..k]) && f.content == Zeros(HEADER_LEN) + Concat(chunks[..k])
    {
      ConcatStep(chunks, k, Zeros(HEADER_LEN));
      var written := w.Write(chunks[k], |chunks[k]|);
      if written.None? {
        return None;
      }
      assert chunks[k][..|chunks[k]|] == chunks[k];
    }
    assert chunks[..|chunks|] == chunks;
    var len, digest := w.Finish(hash);
    var header := EncodeInPlace(template.(bodyLen := len, bodyDigest := digest), hash);
    Rewrite(f, header[..], Zeros(HEADER_LEN), Concat(chunks));
    file := Some(f.content);
  }

  /** The save as the source runs it; the compressor hands over the body in chunks. */
  method SaveGeneration(env: Env, file: Option<Bytes>, g: Generation, now: nat, chunks: seq<Bytes>)
    returns (r: Result<Saved, SaveError>)
    requires Concat(chunks) == env.pack(env.plain(GenerationToWire(g)))
    ensures r == Save(env, file, g, now)
  {
    if !IsValid(env, g) {
      return Err(InvalidGeneration);
    }
    var previous := ReadPrevious(env, file);
    var metadata := MetadataOf(env, g);
    if RequiresInputRetry(g.health) {
      if metadata.None? || metadata.value.clients == {} {
        return Err(NoAffectedClient);
      }
    } else if metadata.Some? {
      return Err(RetryIssuesWithoutCounters);
    }
    var retry := NextRetry(env, g, now, previous);
    var decodedLen := |env.plain(GenerationToWire(g))|;
    if decodedLen > MAX_BODY {
      return Err(DecodedBodyTooLarge);
    }
    var written := WriteCacheFile(HeaderFor(now, [], decodedLen, env.hash, retry), env.hash, chunks, MAX_BODY);
    if written.None? {
      return Err(BodyTooLarge);
    }
    r := Ok(Saved(written.value, retry));
  }
}
