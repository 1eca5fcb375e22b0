/** The 512 bytes of the log header (src/fs/defines.h:73-79): sixty-four little-endian
64-bit words, the block count first. */
module HeaderCodec {
  import opened Bytes
  import opened WriteAheadLog

  function EncodeHeader(h: Header): Data {
    if HeaderOk(h) then Pack([h.numBlocks] + h.blockNo, 8) else seq(BLOCK_SIZE, _ => 0)
  }

  function DecodeHeader(d: Data): Header {
    Header(WordAt(d, 8, 0), seq(LOG_MAX_SIZE, i requires 0 <= i < LOG_MAX_SIZE => WordAt(d, 8, i + 1)))
  }

  const KERNEL := Codec(EncodeHeader, DecodeHeader)

  lemma HeaderRoundTrip(h: Header)
    requires HeaderOk(h)
    ensures DecodeHeader(EncodeHeader(h)) == h
  {
    var words := [h.numBlocks] + h.blockNo;
    PackRoundTrip(words, 8, 0);
    forall i | 0 <= i < LOG_MAX_SIZE
      ensures DecodeHeader(EncodeHeader(h)).blockNo[i] == h.blockNo[i]
    {
      PackRoundTrip(words, 8, i + 1);
    }
  }

  /** The count comes first, and the block numbers after it. */
  lemma HeaderLayout(h: Header)
    requires HeaderOk(h)
    ensures WordAt(EncodeHeader(h), 8, 0) == h.numBlocks
    ensures forall i: nat | i < LOG_MAX_SIZE :: WordAt(EncodeHeader(h), 8, i + 1) == h.blockNo[i]
  {
    var words := [h.numBlocks] + h.blockNo;
    PackRoundTrip(words, 8, 0);
    forall i: nat | i < LOG_MAX_SIZE
      ensures WordAt(EncodeHeader(h), 8, i + 1) == h.blockNo[i]
    {
      PackRoundTrip(words, 8, i + 1);
    }
  }

  lemma DecodedOk(d: Data)
    ensures HeaderOk(DecodeHeader(d))
  {
    ToFrom(d[0..8]);
    forall i | 0 <= i < LOG_MAX_SIZE
      ensures DecodeHeader(d).blockNo[i] < WORD_LIMIT
    {
      ToFrom(d[(i + 1) * 8..(i + 1) * 8 + 8]);
    }
  }

  /** The kernel's layout of the header loses nothing that recovery needs. */
  lemma KernelCodecOk()
    ensures CodecOk(KERNEL)
  {
    forall h: Header | HeaderOk(h)
      ensures KERNEL.decode(KERNEL.encode(h)) == h
    {
      HeaderRoundTrip(h);
    }
    forall d: Data
      ensures HeaderOk(KERNEL.decode(d))
    {
      DecodedOk(d);
    }
  }
}
