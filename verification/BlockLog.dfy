/**
 The append-only block log: a block file holding every block followed by the file position it
 starts at, and an index file holding the positions alone, eight bytes each.

 Packing is a parameter of which only the round trip is used. Files are byte sequences; a position
 is a 64-bit unsigned number in little-endian order.
 */
module BlockLog {
  import opened Blocks

  type Byte = x: int | 0 <= x < 256

  const U64: nat := 0x1_0000_0000_0000_0000

  /** How blocks are packed, unpacked from the front of a stream, and numbered. */
  datatype Codec<!B> = Codec(pack: B -> seq<Byte>, unpack: seq<Byte> -> Option<(B, nat)>, num: B -> nat)

  ghost predicate RoundTrip<B(!new)>(c: Codec<B>) {
    forall b, rest :: Unpacks(c, b, rest)
  }

  ghost predicate Unpacks<B>(c: Codec<B>, b: B, rest: seq<Byte>) {
    c.unpack(c.pack(b) + rest) == Some((b, |c.pack(b)|))
  }

  // ---- Positions as bytes --------------------------------------------------------------------

  function LittleEndian(x: nat, width: nat): (r: seq<Byte>)
    ensures |r| == width
  {
    if width == 0 then [] else [x % 256] + LittleEndian(x / 256, width - 1)
  }

  function Value(s: seq<Byte>): nat {
    if s == [] then 0 else s[0] + 256 * Value(s[1..])
  }

  function Capacity(width: nat): (r: nat)
    ensures r > 0
  {
    if width == 0 then 1 else 256 * Capacity(width - 1)
  }

  /** Bytes keep a number exactly when it fits them. */
  lemma {:induction false} BytesKeep(x: nat, width: nat)
    ensures Value(LittleEndian(x, width)) == x <==> x < Capacity(width)
    ensures Value(LittleEndian(x, width)) <= x
  {
    if width > 0 {
      BytesKeep(x / 256, width - 1);
      assert LittleEndian(x, width)[1..] == LittleEndian(x / 256, width - 1);
    }
  }

  function Le64(x: nat): (r: seq<Byte>)
    ensures |r| == 8
  {
    LittleEndian(x, 8)
  }

  lemma Le64Keeps(x: nat)
    requires x < U64
    ensures Value(Le64(x)) == x
  {
    BytesKeep(x, 8);
    assert Capacity(4) == 0x1_0000_0000;
    assert Capacity(8) == U64;
  }

  // ---- What the files must hold --------------------------------------------------------------

  /** The block file of a log. */
  ghost function Image<B>(c: Codec<B>, bs: seq<B>): seq<Byte> {
    if bs == [] then [] else
      var front := Image(c, bs[..|bs| - 1]);
      front + c.pack(bs[|bs| - 1]) + Le64(|front|)
  }

  /** Where the k-th block starts. */
  ghost function Start<B>(c: Codec<B>, bs: seq<B>, k: nat): nat
    requires k <= |bs|
  {
    |Image(c, bs[..k])|
  }

  /** The index file of a log. */
  ghost function Index<B>(c: Codec<B>, bs: seq<B>): (r: seq<Byte>)
    ensures |r| == 8 * |bs|
  {
    if bs == [] then [] else Index(c, bs[..|bs| - 1]) + Le64(Start(c, bs, |bs| - 1))
  }

  ghost predicate Numbered<B>(c: Codec<B>, bs: seq<B>) {
    forall k | 0 <= k < |bs| :: c.num(bs[k]) == k + 1
  }

  /** A block file that fits 64-bit positions and whose blocks are numbered from one. */
  ghost predicate IsLog<B(!new)>(c: Codec<B>, bs: seq<B>) {
    RoundTrip(c) && Numbered(c, bs) && |Image(c, bs)| < U64
  }

  lemma ImageSnoc<B>(c: Codec<B>, bs: seq<B>, b: B)
    ensures Image(c, bs + [b]) == Image(c, bs) + c.pack(b) + Le64(|Image(c, bs)|)
    ensures Index(c, bs + [b]) == Index(c, bs) + Le64(|Image(c, bs)|)
  {
    assert (bs + [b])[..|bs|] == bs;
  }

  /** The file of a longer log starts with the file of a shorter one. */
  lemma {:induction false} ImagePrefix<B>(c: Codec<B>, bs: seq<B>, k: nat)
    requires k <= |bs|
    ensures Image(c, bs[..k]) <= Image(c, bs) && Index(c, bs[..k]) <= Index(c, bs)
    decreases |bs|
  {
    if k < |bs| {
      var front := bs[..|bs| - 1];
      ImagePrefix(c, front, k);
      assert front[..k] == bs[..k];
    } else {
      assert bs[..k] == bs;
    }
  }

  /** What stands at the start of the k-th block. */
  lemma RecordAt<B>(c: Codec<B>, bs: seq<B>, k: nat)
    requires k < |bs|
    ensures Start(c, bs, k + 1) == Start(c, bs, k) + |c.pack(bs[k])| + 8 <= |Image(c, bs)|
    ensures Image(c, bs)[Start(c, bs, k)..Start(c, bs, k + 1)] == c.pack(bs[k]) + Le64(Start(c, bs, k))
  {
    hide Image, Index, Le64;
    var upto := bs[..k + 1];
    assert upto == bs[..k] + [bs[k]];
    ImageSnoc(c, bs[..k], bs[k]);
    ImagePrefix(c, bs, k + 1);
    var n := Start(c, bs, k + 1);
    assert Image(c, bs)[..n] == Image(c, upto);
    assert Image(c, bs)[Start(c, bs, k)..n] == Image(c, bs)[..n][Start(c, bs, k)..];
  }

  /** Unpacking at the start of the k-th block gives that block and its length. */
  lemma UnpackAt<B(!new)>(c: Codec<B>, bs: seq<B>, k: nat)
    requires RoundTrip(c) && k < |bs|
    ensures Start(c, bs, k) <= |Image(c, bs)|
    ensures c.unpack(Image(c, bs)[Start(c, bs, k)..]) == Some((bs[k], |c.pack(bs[k])|))
  {
    hide Image, Index, Le64, Start;
    RecordAt(c, bs, k);
    var file, p, q := Image(c, bs), Start(c, bs, k), Start(c, bs, k + 1);
    var rest := Le64(p) + file[q..];
    assert file[p..] == file[p..q] + file[q..] == c.pack(bs[k]) + rest;
    assert Unpacks(c, bs[k], rest);
  }

  /** The eight bytes after the k-th block, and the k-th entry of the index, are its position. */
  lemma PositionAt<B>(c: Codec<B>, bs: seq<B>, k: nat)
    requires k < |bs| && |Image(c, bs)| < U64
    ensures var q := Start(c, bs, k + 1); 8 <= q <= |Image(c, bs)| && Value(Image(c, bs)[q - 8..q]) == Start(c, bs, k)
    ensures Value(Index(c, bs)[8 * k..8 * k + 8]) == Start(c, bs, k)
  {
    hide Image, Index, Le64, Start, Value;
    RecordAt(c, bs, k);
    var file, p, q := Image(c, bs), Start(c, bs, k), Start(c, bs, k + 1);
    assert file[q - 8..q] == file[p..q][|c.pack(bs[k])|..] == Le64(p);
    Le64Keeps(p);
    IndexAt(c, bs, k);
  }

  lemma IndexAt<B>(c: Codec<B>, bs: seq<B>, k: nat)
    requires k < |bs|
    ensures Index(c, bs)[8 * k..8 * k + 8] == Le64(Start(c, bs, k))
  {
    hide Image, Index, Le64;
    var upto := bs[..k + 1];
    assert upto == bs[..k] + [bs[k]];
    ImageSnoc(c, bs[..k], bs[k]);
    ImagePrefix(c, bs, k + 1);
    assert Index(c, bs)[8 * k..8 * k + 8] == Index(c, bs)[..8 * k + 8][8 * k..];
  }

  lemma NothingYet<B>(c: Codec<B>, bs: seq<B>)
    ensures Start(c, bs, 0) == 0 && Index(c, bs[..0]) == []
  {
    assert bs[..0] == [];
  }

  lemma IndexUpTo<B>(c: Codec<B>, bs: seq<B>, k: nat)
    requires k < |bs|
    ensures Index(c, bs[..k + 1]) == Index(c, bs[..k]) + Le64(Start(c, bs, k))
  {
    hide Image, Index, Le64;
    assert bs[..k + 1] == bs[..k] + [bs[k]];
    ImageSnoc(c, bs[..k], bs[k]);
  }

  /** Having read k blocks, the last one's position tells whether more follow. */
  lemma StartsInOrder<B>(c: Codec<B>, bs: seq<B>, k: nat)
    requires k <= |bs| && bs != []
    ensures k > 0 ==> (Start(c, bs, k - 1) < Start(c, bs, |bs| - 1) <==> k < |bs|)
    ensures 0 < Start(c, bs, |bs| - 1) <==> |bs| > 1
  {
    hide Image, Start;
    NothingYet(c, bs);
    if 0 < k < |bs| { StartsGrow(c, bs, k - 1, |bs| - 1); }
    if |bs| > 1 { StartsGrow(c, bs, 0, |bs| - 1); }
  }

  lemma {:induction false} StartsGrow<B>(c: Codec<B>, bs: seq<B>, j: nat, k: nat)
    requires j < k <= |bs|
    ensures Start(c, bs, j) < Start(c, bs, k)
    decreases k
  {
    hide Image, Index, Le64, Start;
    RecordAt(c, bs, k - 1);
    if j < k - 1 {
      StartsGrow(c, bs, j, k - 1);
    }
  }

  lemma ImageSize<B>(c: Codec<B>, bs: seq<B>)
    ensures Image(c, bs) == [] <==> bs == []
    ensures Index(c, bs) == [] <==> bs == []
  {
    hide Le64;
  }

  /** Of two logs that agree as far as both go, the last positions are equal only if the logs are. */
  lemma LastPositions<B>(c: Codec<B>, bs: seq<B>, xs: seq<B>)
    requires bs != [] && xs != [] && (xs <= bs || bs <= xs)
    ensures Start(c, bs, |bs| - 1) == Start(c, xs, |xs| - 1) <==> xs == bs
  {
    if |xs| < |bs| {
      StartsGrow(c, bs, |xs| - 1, |bs| - 1);
      assert xs[..|xs| - 1] == bs[..|xs| - 1];
    } else if |bs| < |xs| {
      StartsGrow(c, xs, |bs| - 1, |xs| - 1);
      assert xs[..|bs| - 1] == bs[..|bs| - 1];
    }
  }

  // ---- Opening a log whose index may hold anything -------------------------------------------

  /** The index ends in the position of the last block. */
  ghost predicate Trusted<B>(c: Codec<B>, bs: seq<B>, index: seq<Byte>)
    requires bs != []
  {
    |index| >= 8 && Value(index[|index| - 8..]) == Start(c, bs, |bs| - 1)
  }

  /** Opening leaves the right index: it was right, or it was seen to be wrong and could be rebuilt. */
  ghost predicate Recovers<B>(c: Codec<B>, bs: seq<B>, index: seq<Byte>) {
    || bs == []
    || index == Index(c, bs)
    || (|bs| != 1 && (index == [] || (|index| >= 8 && !Trusted(c, bs, index))))
  }

  lemma RightIsTrusted<B>(c: Codec<B>, bs: seq<B>)
    requires |Image(c, bs)| < U64
    ensures bs != [] ==> Trusted(c, bs, Index(c, bs))
  {
    hide Image, Index, Start, Le64, Value;
    if bs != [] {
      PositionAt(c, bs, |bs| - 1);
      var index := Index(c, bs);
      assert index[|index| - 8..] == index[8 * (|bs| - 1)..8 * (|bs| - 1) + 8];
    }
  }

  /** An index that lost or kept whole entries is put right, except where the log holds a single block. */
  lemma WholeEntriesRecover<B>(c: Codec<B>, bs: seq<B>, xs: seq<B>)
    requires |Image(c, bs)| < U64 && |Image(c, xs)| < U64 && (xs <= bs || bs <= xs)
    ensures Recovers(c, bs, Index(c, xs)) <==> |bs| != 1 || |xs| == 1
  {
    hide Image, Index, Start, Le64, Value;
    RightIsTrusted(c, xs);
    if bs != [] && xs != [] {
      LastPositions(c, bs, xs);
    }
    assert |Index(c, xs)| == 8 * |xs| && |Index(c, bs)| == 8 * |bs|;
    assert |xs| == |bs| ==> xs == bs;
  }

  lemma {:induction false} ShiftedByOne(x: nat, width: nat)
    requires width > 0 && x < Capacity(width - 1)
    ensures LittleEndian(x, width)[width - 1] == 0
    ensures Value([0] + LittleEndian(x, width)[..width - 1]) == 256 * x
  {
    var s := LittleEndian(x, width);
    ZeroOnTop(x, width);
    BytesKeep(x, width - 1);
    assert s[..width - 1] == LittleEndian(x, width - 1);
    assert ([0] + s[..width - 1])[1..] == s[..width - 1];
  }

  lemma {:induction false} ZeroOnTop(x: nat, width: nat)
    requires width > 0 && x < Capacity(width - 1)
    ensures LittleEndian(x, width) == LittleEndian(x, width - 1) + [0]
  {
    if width > 1 {
      ZeroOnTop(x / 256, width - 1);
    }
  }

  const U56: nat := 0x100_0000_0000_0000

  /**
   An index cut one byte short of an entry ends, read as a position, in 256 times that entry. So a
   log whose last block starts there opens with the torn index.
   */
  lemma TornEntry<B>(c: Codec<B>, bs: seq<B>, k: nat)
    requires 0 < k < |bs| && Start(c, bs, k) < U56
    ensures Trusted(c, bs, Index(c, bs)[..8 * k + 7]) <==> Start(c, bs, |bs| - 1) == 256 * Start(c, bs, k)
    ensures Start(c, bs, |bs| - 1) == 256 * Start(c, bs, k) ==> !Recovers(c, bs, Index(c, bs)[..8 * k + 7])
  {
    hide Image, Index, Start, Value;
    var index := Index(c, bs)[..8 * k + 7];
    var p, q := Start(c, bs, k - 1), Start(c, bs, k);
    StartsGrow(c, bs, k - 1, k);
    IndexAt(c, bs, k - 1);
    IndexAt(c, bs, k);
    assert Capacity(3) == 0x100_0000;
    assert Capacity(7) == U56;
    ShiftedByOne(p, 8);
    ShiftedByOne(q, 8);
    assert index[8 * k - 1] == Index(c, bs)[8 * (k - 1)..8 * (k - 1) + 8][7] == 0;
    assert index[8 * k..] == Index(c, bs)[8 * k..8 * k + 8][..7];
    assert index[|index| - 8..] == [0] + Le64(q)[..7];
  }

  // ---- Such a log ----------------------------------------------------------------------------

  /** Ones closed by a zero. */
  function Tally(n: nat): (r: seq<Byte>)
    ensures |r| == n + 1
  {
    if n == 0 then [0] else [1] + Tally(n - 1)
  }

  function CountOnes(s: seq<Byte>): Option<nat> {
    if s == [] then None else if s[0] == 0 then Some(0) else
      match CountOnes(s[1..]) case None => None case Some(n) => Some(n + 1)
  }

  lemma {:induction false} TallyCounted(n: nat, rest: seq<Byte>)
    ensures CountOnes(Tally(n) + rest) == Some(n)
  {
    if n > 0 {
      TallyCounted(n - 1, rest);
      assert (Tally(n) + rest)[1..] == Tally(n - 1) + rest;
    }
  }

  /** Blocks that are a number and some ballast, packed as two tallies. */
  function Tallies(): Codec<(nat, nat)> {
    Codec((b: (nat, nat)) => Tally(b.0) + Tally(b.1), TwoTallies, (b: (nat, nat)) => b.0)
  }

  function TwoTallies(s: seq<Byte>): Option<((nat, nat), nat)> {
    match CountOnes(s)
    case None => None
    case Some(n) =>
      if |s| <= n then None else
        match CountOnes(s[n + 1..])
        case None => None
        case Some(m) => Some(((n, m), n + m + 2))
  }

  lemma TalliesRoundTrip()
    ensures RoundTrip(Tallies())
  {
    forall b: (nat, nat), rest ensures Unpacks(Tallies(), b, rest) {
      var s := Tally(b.0) + (Tally(b.1) + rest);
      assert Tallies().pack(b) + rest == s;
      TallyCounted(b.0, Tally(b.1) + rest);
      TallyCounted(b.1, rest);
      assert s[b.0 + 1..] == Tally(b.1) + rest;
    }
  }

  /** Three blocks, the second at 300 and the third at 76800: an index cut to 15 bytes goes unnoticed. */
  lemma TornIndexUnnoticed()
    ensures var c, bs := Tallies(), [(1, 289), (2, 76488), (3, 0)];
      && IsLog(c, bs) && Start(c, bs, 1) == 300 && Start(c, bs, 2) == 76800
      && !Recovers(c, bs, Index(c, bs)[..15])
  {
    hide Image, Index, Tally;
    var c, bs := Tallies(), [(1, 289), (2, 76488), (3, 0)];
    TalliesRoundTrip();
    NothingYet(c, bs);
    RecordAt(c, bs, 0);
    RecordAt(c, bs, 1);
    RecordAt(c, bs, 2);
    assert bs[..3] == bs;
    TornEntry(c, bs, 1);
  }

  // ---- The log -------------------------------------------------------------------------------

  datatype Read<B> = Found(block: B) | NoSuchBlock | Corrupt

  class BlockLog<B(!new)> {
    const codec: Codec<B>
    var blockFile: seq<Byte>
    var indexFile: seq<Byte>
    var head: Option<B>

    /** The log holds exactly these blocks. */
    ghost predicate Holds(bs: seq<B>)
      reads this
    {
      IsLog(codec, bs) && blockFile == Image(codec, bs) && indexFile == Index(codec, bs) && HeadIs(bs)
    }

    ghost predicate HeadIs(bs: seq<B>)
      reads this
    {
      head == if bs == [] then None else Some(bs[|bs| - 1])
    }

    constructor (c: Codec<B>)
      requires RoundTrip(c)
      ensures codec == c && Holds([])
    {
      codec, blockFile, indexFile, head := c, [], [], None;
    }

    /** Appends a block, if it is the next one; otherwise nothing is written. */
    method Append(b: B, ghost bs: seq<B>) returns (pos: Option<nat>)
      modifies this
      ensures pos.Some? <==> old(|indexFile|) == 8 * (codec.num(b) - 1)
      ensures pos.None? ==> blockFile == old(blockFile) && indexFile == old(indexFile) && head == old(head)
      ensures old(Holds(bs)) ==> (pos.Some? <==> codec.num(b) == |bs| + 1)
      ensures old(Holds(bs)) && pos.Some? && |blockFile| < U64 ==> Holds(bs + [b])
      ensures old(Holds(bs)) && pos.Some? && |blockFile| < U64 ==> pos == Some(Start(codec, bs + [b], |bs|))
    {
      hide Image, Index, Le64;
      var at := |blockFile|;
      if |indexFile| != 8 * (codec.num(b) - 1) {
        return None;
      }
      assert (bs + [b])[..|bs|] == bs;
      ImageSnoc(codec, bs, b);
      blockFile := blockFile + codec.pack(b);
      blockFile := blockFile + Le64(at);
      indexFile := indexFile + Le64(at);
      head := Some(b);
      pos := Some(at);
    }

    /** Reads the block at a position, and the position of the block after it. */
    method ReadBlock(pos: nat) returns (r: Option<(B, nat)>)
      ensures r == if pos <= |blockFile| && codec.unpack(blockFile[pos..]).Some? then
                     var u := codec.unpack(blockFile[pos..]).value; Some((u.0, pos + u.1 + 8))
                   else None
    {
      if pos > |blockFile| {
        return None;
      }
      match codec.unpack(blockFile[pos..]) {
        case None => r := None;
        case Some(u) => r := Some((u.0, pos + u.1 + 8));
      }
    }

    /** The position of a block by its number. */
    method GetBlockPos(n: nat, ghost bs: seq<B>) returns (pos: Option<nat>)
      requires Holds(bs)
      ensures pos == if 1 <= n <= |bs| then Some(Start(codec, bs, n - 1)) else None
    {
      hide Image, Index, Le64, Value, Start;
      if head.None? || n > codec.num(head.value) || n == 0 {
        return None;
      }
      PositionAt(codec, bs, n - 1);
      pos := Some(Value(indexFile[8 * (n - 1)..8 * (n - 1) + 8]));
    }

    /** Reads a block by its number: exactly the n-th appended block. */
    method ReadBlockByNum(n: nat, ghost bs: seq<B>) returns (r: Read<B>)
      requires Holds(bs)
      ensures r == if 1 <= n <= |bs| then Found(bs[n - 1]) else NoSuchBlock
    {
      hide Image, Index, Start;
      var pos := GetBlockPos(n, bs);
      if pos.None? {
        return NoSuchBlock;
      }
      UnpackAt(codec, bs, n - 1);
      var got := ReadBlock(pos.value);
      if got.None? || codec.num(got.value.0) != n {
        return Corrupt;
      }
      r := Found(got.value.0);
    }

    /** The position in the last eight bytes of the block file. */
    method LastPosition(ghost bs: seq<B>) returns (pos: nat)
      requires IsLog(codec, bs) && blockFile == Image(codec, bs) && bs != []
      ensures pos == Start(codec, bs, |bs| - 1)
    {
      hide Image, Index, Le64, Value;
      PositionAt(codec, bs, |bs| - 1);
      assert bs[..|bs|] == bs;
      assert blockFile[|blockFile| - 8..] == blockFile[|blockFile| - 8..|blockFile|];
      pos := Value(blockFile[|blockFile| - 8..]);
    }

    method ReadHead(ghost bs: seq<B>) returns (b: B)
      requires IsLog(codec, bs) && blockFile == Image(codec, bs) && bs != []
      ensures b == bs[|bs| - 1]
    {
      hide Image, Index, Start;
      var pos := LastPosition(bs);
      UnpackAt(codec, bs, |bs| - 1);
      var got := ReadBlock(pos);
      b := got.value.0;
    }

    /** Walks the block file from one block to the next, as a replay does. */
    method ReadFrom(first: nat, last: nat, ghost bs: seq<B>) returns (blocks: seq<B>)
      requires Holds(bs) && 1 <= first <= last <= |bs|
      ensures blocks == bs[first - 1..last]
    {
      hide Image, Index, Start, RoundTrip;
      var pos := GetBlockPos(first, bs);
      UnpackAt(codec, bs, first - 1);
      RecordAt(codec, bs, first - 1);
      var got := ReadBlock(pos.value);
      var itr := got.value;
      blocks := [];
      ghost var k := first - 1;
      while codec.num(itr.0) < last
        invariant first - 1 <= k < last && itr == (bs[k], Start(codec, bs, k + 1)) && blocks == bs[first - 1..k]
        decreases last - k
      {
        UnpackAt(codec, bs, k + 1);
        RecordAt(codec, bs, k + 1);
        blocks := blocks + [itr.0];
        got := ReadBlock(itr.1);
        itr := got.value;
        k := k + 1;
      }
      blocks := blocks + [itr.0];
    }

    /**
     Rebuilds the index from the block file. The loop compares the position it has just read with
     the last one, so it does not run at all when the log holds a single block.
     */
    method ConstructIndex(ghost bs: seq<B>)
      requires IsLog(codec, bs) && blockFile == Image(codec, bs) && bs != []
      modifies `indexFile
      ensures indexFile == if |bs| == 1 then [] else Index(codec, bs)
    {
      hide Image, Index, Start, Le64, Value, RoundTrip, Numbered;
      indexFile := [];
      var pos, at := 0, 0;
      var endPos := LastPosition(bs);
      ghost var k := 0;
      NothingYet(codec, bs);
      while pos < endPos
        invariant 0 <= k <= |bs| && at == Start(codec, bs, k)
        invariant pos == if k == 0 then 0 else Start(codec, bs, k - 1)
        invariant indexFile == Index(codec, bs[..k])
        invariant k > 0 ==> |bs| > 1
        decreases |bs| - k
      {
        StartsInOrder(codec, bs, k);
        UnpackAt(codec, bs, k);
        RecordAt(codec, bs, k);
        PositionAt(codec, bs, k);
        var next := at + codec.unpack(blockFile[at..]).value.1;
        pos := Value(blockFile[next..next + 8]);
        at := next + 8;
        IndexUpTo(codec, bs, k);
        indexFile := indexFile + Le64(pos);
        k := k + 1;
      }
      StartsInOrder(codec, bs, k);
      assert bs[..|bs|] == bs;
    }

    /**
     Opening existing files, whatever the index holds. It ends up right exactly when Recovers says so;
     with one to seven bytes in it, the seek to its last entry fails and so does the call.
     */
    method Open(ghost bs: seq<B>) returns (ok: bool)
      requires IsLog(codec, bs) && blockFile == Image(codec, bs) && head.None?
      modifies `indexFile, `head
      ensures ok <==> bs == [] || |old(indexFile)| == 0 || |old(indexFile)| >= 8
      ensures Holds(bs) <==> Recovers(codec, bs, old(indexFile))
      ensures !Holds(bs) ==> indexFile == if ok && !Trusted(codec, bs, old(indexFile)) then [] else old(indexFile)
      ensures HeadIs(bs)
    {
      hide Image, Index, Start, Le64, Value, RoundTrip, Numbered;
      var logSize, indexSize := |blockFile|, |indexFile|;
      ImageSize(codec, bs);
      RightIsTrusted(codec, bs);
      if logSize != 0 {
        var h := ReadHead(bs);
        head := Some(h);
        if indexSize != 0 {
          var blockPos := LastPosition(bs);
          if indexSize < 8 {
            return false;
          }
          var indexPos := Value(indexFile[indexSize - 8..]);
          if blockPos < indexPos {
            ConstructIndex(bs);
          } else if blockPos > indexPos {
            ConstructIndex(bs);
          }
        } else {
          ConstructIndex(bs);
        }
      } else if indexSize != 0 {
        indexFile := [];
      }
      ok := true;
    }
  }
}
