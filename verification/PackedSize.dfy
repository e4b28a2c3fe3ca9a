/** The length of the stream that packing makes: the same for every stream made of an input, and
    at most a multiple of the input's. */
module PackedSize {
  import opened Bits
  import opened Rotations
  import opened RunLengthCoding
  import opened Decoder
  import opened DecoderRuns
  import opened BlockFormat
  import opened CompressedStream
  import opened StreamSize
  import opened InputCollector
  import opened Compressor

  /** The runs of each block when the input is packed in one go. */
  function PlanOf(x: seq<Byte>, bs: nat): seq<seq<ByteRun>>
    requires bs >= 1
  {
    Parts(Gathered([], NO_CHAR, 0), x, 100000 * bs - 19)
  }

  /** `dest` is a complete stream made from `x`. */
  ghost predicate Packed(k: Checksum, bs: nat, dest: seq<Byte>, x: seq<Byte>) {
    bs >= 1 && exists bls :: Ended(k, bls, bs, BytesBits(dest)) && Original(bls) == x && RunsOf(bls) == PlanOf(x, bs)
  }

  /** The runs of all blocks together are the only maximal runs of the input. */
  lemma PlanIsTheRuns(x: seq<Byte>, bs: nat, rs: seq<ByteRun>)
    requires bs >= 1 && Chained(rs) && Maximal(rs) && InputOf(rs) == x
    ensures Flat(PlanOf(x, bs)) == rs
  {
    hide Parts, Flat;
    var g := Gathered([], NO_CHAR, 0);
    PartsWhole(g, x, 100000 * bs - 19);
    assert InputOf(WithPending(g)) + x == x;
    MaximalUnique(Flat(PlanOf(x, bs)), rs);
  }

  lemma {:induction false} BytesBitsSize(s: seq<Byte>)
    ensures |BytesBits(s)| == 8 * |s|
    decreases |s|
  {
    if s != [] { BytesBitsSize(s[1..]); }
  }

  // ------------------------------------------------------------------ one size for each input

  /** Blocks of the same runs take the same room, and more blocks take no less. */
  lemma {:induction false} BlocksSizeAlike(k: Checksum, xs: seq<Block>, ys: seq<Block>, bs: nat)
    requires AllChosen(xs, bs) && AllChosen(ys, bs) && RunsOf(xs) <= RunsOf(ys)
    ensures |BlocksBits(k, xs, bs)| <= |BlocksBits(k, ys, bs)|
    ensures |xs| == |ys| ==> |BlocksBits(k, xs, bs)| == |BlocksBits(k, ys, bs)|
    decreases |xs|
  {
    hide LegalBlock, Chosen, BlockBits;
    if xs != [] {
      assert forall i :: 0 <= i < |xs| ==> xs[i].runs == RunsOf(xs)[i] == RunsOf(ys)[i] == ys[i].runs;
      assert RunsOf(xs[1..]) == RunsOf(xs)[1..] && RunsOf(ys[1..]) == RunsOf(ys)[1..];
      assert RunsOf(ys)[1..][..|xs| - 1] == RunsOf(ys)[..|xs|][1..];
      BlocksAlike(k, xs[0], ys[0], bs);
      BlocksSizeAlike(k, xs[1..], ys[1..], bs);
    }
  }

  lemma EnvelopeSize(k: Checksum, bls: seq<Block>, bs: nat)
    requires AllChosen(bls, bs)
    ensures |BodyBits(k, bls, bs)| == 32 + |BlocksBits(k, bls, bs)|
    ensures |StreamBits(k, bls, bs)| == 112 + |BlocksBits(k, bls, bs)|
  {
    hide LegalBlock, Chosen, BlocksBits, ToBits, MagicBits;
    MagicSize(END_MAGIC);
  }

  lemma EndedSize(k: Checksum, bls: seq<Block>, bs: nat, dest: seq<Byte>)
    requires Ended(k, bls, bs, BytesBits(dest))
    ensures 112 + |BlocksBits(k, bls, bs)| <= 8 * |dest| < 120 + |BlocksBits(k, bls, bs)|
  {
    hide LegalBlock, Chosen, BlocksBits, StreamBits, BytesBits;
    BytesBitsSize(dest);
    EnvelopeSize(k, bls, bs);
  }

  /** All streams made of an input are equally long. */
  lemma PackedAlike(k: Checksum, bs: nat, d: seq<Byte>, e: seq<Byte>, x: seq<Byte>)
    requires Packed(k, bs, d, x) && Packed(k, bs, e, x)
    ensures |d| == |e|
  {
    hide LegalBlock, Chosen, BlocksBits, StreamBits, BytesBits, Parts, Original;
    var xs :| Ended(k, xs, bs, BytesBits(d)) && Original(xs) == x && RunsOf(xs) == PlanOf(x, bs);
    var ys :| Ended(k, ys, bs, BytesBits(e)) && Original(ys) == x && RunsOf(ys) == PlanOf(x, bs);
    BlocksSizeAlike(k, xs, ys, bs);
    EndedSize(k, xs, bs, d);
    EndedSize(k, ys, bs, e);
  }

  // ------------------------------------------------------------------ a size that always suffices

  /** Room that is enough for every stream of `n` bytes. */
  function RoomFor(n: nat): nat { 3 * n + 6500 }

  lemma FullBlockBound(n: nat, m: nat)
    requires 4 * n <= 5 * m
    ensures MostBits(n) <= 24 * m + 51532
    ensures n >= 99981 ==> MostBits(n) <= 24 * m
  {
  }

  /** All blocks but the last are full, so what the tables of a block take is little beside it. */
  lemma {:induction false} BlocksBound(k: Checksum, bls: seq<Block>, bs: nat)
    requires AllChosen(bls, bs) && forall i :: 0 <= i < |bls| - 1 ==> RunsSize(bls[i].runs) >= 99981
    ensures |BlocksBits(k, bls, bs)| <= 24 * |Original(bls)| + 51532
    decreases |bls|
  {
    hide Chosen, BlockBits, LegalCoding, SortedOrder;
    if bls != [] {
      RunsSizeIs(bls[0].runs);
      BlockBound(k, bls[0], bs);
      FullBlockBound(RunsSize(bls[0].runs), |InputOf(bls[0].runs)|);
      BlocksBound(k, bls[1..], bs);
      if |bls| == 1 { assert BlocksBits(k, bls[1..], bs) == []; }
    }
  }

  /** The stream of these blocks so far, or all of it. */
  ghost predicate Sent(k: Checksum, bs: nat, bls: seq<Block>, sent: seq<Byte>, x: seq<Byte>) {
    && bs >= 1 && RunsOf(bls) <= PlanOf(x, bs) && |Original(bls)| <= |x|
    && ((exists tail :: Going(k, bls, bs, true, BytesBits(sent) + tail))
      || (Ended(k, bls, bs, BytesBits(sent)) && RunsOf(bls) == PlanOf(x, bs)))
  }

  lemma SentSize(k: Checksum, bs: nat, bls: seq<Block>, sent: seq<Byte>, x: seq<Byte>)
    requires Sent(k, bs, bls, sent, x)
    ensures AllChosen(bls, bs) && 8 * |sent| < 120 + |BlocksBits(k, bls, bs)|
    ensures 8 * |sent| <= 32 + |BlocksBits(k, bls, bs)| || RunsOf(bls) == PlanOf(x, bs)
    ensures RunsOf(bls) <= PlanOf(x, bs) && |Original(bls)| <= |x|
  {
    hide LegalBlock, Chosen, BlocksBits, StreamBits, BodyBits, BytesBits, Parts, Original, RunsOf;
    BytesBitsSize(sent);
    if tail :| Going(k, bls, bs, true, BytesBits(sent) + tail) {
      EnvelopeSize(k, bls, bs);
    } else {
      EndedSize(k, bls, bs, sent);
    }
  }

  /** What goes out while packing is never longer than the room that always suffices ... */
  lemma SentBound(k: Checksum, bs: nat, bls: seq<Block>, sent: seq<Byte>, x: seq<Byte>)
    requires Sent(k, bs, bls, sent, x)
    ensures |sent| <= RoomFor(|x|)
  {
    SentSize(k, bs, bls, sent, x);
    hide LegalBlock, Chosen, BlocksBits, PlanOf, Original, Sent, RunsOf, AllChosen;
    FullButLast(bls, bs, x);
    BlocksBound(k, bls, bs);
  }

  lemma FullButLast(bls: seq<Block>, bs: nat, x: seq<Byte>)
    requires bs >= 1 && RunsOf(bls) <= PlanOf(x, bs)
    ensures forall i :: 0 <= i < |bls| - 1 ==> RunsSize(bls[i].runs) >= 99981
  {
    hide Parts;
    forall i | 0 <= i < |bls| - 1 ensures RunsSize(bls[i].runs) >= 99981 {
      assert bls[i].runs == RunsOf(bls)[i] == PlanOf(x, bs)[i];
      PartsFull(Gathered([], NO_CHAR, 0), x, 100000 * bs - 19, i);
    }
  }

  /** ... and no longer than the complete stream. */
  lemma SentWithinStream(k: Checksum, bs: nat, bls: seq<Block>, sent: seq<Byte>, x: seq<Byte>, full: seq<Byte>)
    requires Sent(k, bs, bls, sent, x) && Packed(k, bs, full, x)
    ensures |sent| <= |full|
  {
    SentSize(k, bs, bls, sent, x);
    hide LegalBlock, Chosen, BlocksBits, StreamBits, BodyBits, BytesBits, Parts, Original, Sent;
    var ys :| Ended(k, ys, bs, BytesBits(full)) && Original(ys) == x && RunsOf(ys) == PlanOf(x, bs);
    BlocksSizeAlike(k, bls, ys, bs);
    EndedSize(k, ys, bs, full);
  }
}
