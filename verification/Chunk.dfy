/** The `MemoryChunk` frame: a length, an exclusive-or checksum, and the payload. */
module Chunk {
  import opened Bytes
  import opened Outcomes

  const FRAME := 8

  datatype FrameError = TooShort | BadLength | BadChecksum

  // ---- the reader's checksum: zero-padded words ----

  function Padded(payload: Data): (r: Data)
    ensures |r| % 4 == 0 && payload <= r
  {
    payload + seq((4 - |payload| % 4) % 4, _ => 0)
  }

  function Words(data: Data): (r: nat)
    requires |data| % 4 == 0
  {
    if data == [] then 0 else Xor(Little(data[..4]), Words(data[4..]))
  }

  method ReaderChecksum(payload: Data) returns (calculated: nat)
    ensures calculated == Words(Padded(payload))
  {
    hide Xor, Words, Little, Tail;
    ZeroXor();
    var padded := Padded(payload);
    calculated := 0;
    var i := 0;
    assert padded[0..] == padded;
    while i < |padded|
      invariant 0 <= i <= |padded| && i % 4 == 0
      invariant Xor(calculated, Words(padded[i..])) == Words(padded)
    {
      WordStep(padded, i, calculated);
      calculated := Xor(calculated, Little(padded[i..i + 4]));
      i := i + 4;
    }
    assert padded[i..] == [];
  }

  // ---- the writer's checksum: whole words, then shifted tail bytes ----

  function Tail(data: Data, shift: nat): (r: nat) {
    if data == [] then 0 else Xor(Shift(data[0], 8 * shift), Tail(data[1..], shift + 1))
  }

  method WriterChecksum(payload: Data) returns (checksum: nat)
    ensures checksum == Xor(Words(payload[..Aligned(payload)]), Tail(payload[Aligned(payload)..], 0))
  {
    hide Xor;
    hide Words;
    hide Tail;
    hide Little;
    ZeroXor();
    checksum := 0;
    var aligned := Aligned(payload);
    var whole, tail := payload[..aligned], payload[aligned..];
    var i := 0;
    assert whole[0..] == whole;
    while i < aligned
      invariant 0 <= i <= aligned && i % 4 == 0
      invariant Xor(checksum, Words(whole[i..])) == Words(whole)
    {
      WordStep(whole, i, checksum);
      assert whole[i..i + 4] == payload[i..i + 4];
      checksum := Xor(checksum, Little(payload[i..i + 4]));
      i := i + 4;
    }
    assert whole[aligned..] == [] && whole[0..] == whole && tail[0..] == tail;
    ghost var words := checksum;
    for shift := 0 to |tail|
      invariant Xor(checksum, Tail(tail[shift..], shift)) == Xor(words, Tail(tail, 0))
    {
      TailStep(tail, shift, checksum);
      checksum := Xor(checksum, Shift(tail[shift], 8 * shift));
    }
    assert tail[|tail|..] == [];
  }

  lemma ZeroXor()
    ensures forall a: nat :: Xor(a, 0) == a && Xor(0, a) == a
    ensures Words([]) == 0 && forall shift: nat :: Tail([], shift) == 0
  {
  }

  lemma TailStep(tail: Data, shift: nat, checksum: nat)
    requires shift < |tail|
    ensures Xor(checksum, Tail(tail[shift..], shift))
         == Xor(Xor(checksum, Shift(tail[shift], 8 * shift)), Tail(tail[shift + 1..], shift + 1))
  {
    assert tail[shift..][0] == tail[shift] && tail[shift..][1..] == tail[shift + 1..];
    XorAssociates(checksum, Shift(tail[shift], 8 * shift), Tail(tail[shift + 1..], shift + 1));
  }

  lemma WordStep(data: Data, i: nat, checksum: nat)
    requires |data| % 4 == 0 && i % 4 == 0 && i < |data|
    ensures i + 4 <= |data|
    ensures Xor(checksum, Words(data[i..])) == Xor(Xor(checksum, Little(data[i..i + 4])), Words(data[i + 4..]))
  {
    assert data[i..][..4] == data[i..i + 4] && data[i..][4..] == data[i + 4..];
    XorAssociates(checksum, Little(data[i..i + 4]), Words(data[i + 4..]));
  }

  function Aligned(payload: Data): (n: nat)
    ensures n <= |payload| && n % 4 == 0 && |payload| - n < 4
  {
    |payload| - |payload| % 4
  }

  // ---- the two agree ----

  lemma TwoBytes(x: nat, y: nat)
    requires x < 256
    ensures Xor(x, Shift(y, 8)) == x + 256 * y
  {
    ByteShifts(y);
    XorDisjoint(x, y, 8);
  }

  lemma ThreeBytes(x: nat, y: nat, z: nat)
    requires x < 256 && y < 256
    ensures Xor(x, Xor(Shift(y, 8), Shift(z, 16))) == x + 256 * y + 0x1_0000 * z
  {
    XorAssociates(x, Shift(y, 8), Shift(z, 16));
    TwoBytes(x, y);
    ByteShifts(z);
    XorDisjoint(x + 256 * y, z, 16);
  }

  lemma TailOfThree(tail: Data)
    requires |tail| < 4
    ensures Tail(tail, 0) ==
      if |tail| == 0 then 0
      else if |tail| == 1 then tail[0]
      else if |tail| == 2 then Xor(tail[0], Shift(tail[1], 8))
      else Xor(tail[0], Xor(Shift(tail[1], 8), Shift(tail[2], 16)))
  {
    if |tail| >= 1 { ByteShifts(tail[0]); }
    if |tail| == 3 {
      assert tail[1..][1..] == [tail[2]] && tail[1..][0] == tail[1];
      assert Tail([tail[2]], 2) == Xor(Shift(tail[2], 16), Tail([], 3)) by { assert [tail[2]][1..] == []; }
      XorCommutes(Shift(tail[2], 16), 0);
    } else if |tail| == 2 {
      assert tail[1..] == [tail[1]];
      assert Tail([tail[1]], 1) == Xor(Shift(tail[1], 8), Tail([], 2)) by { assert [tail[1]][1..] == []; }
      XorCommutes(Shift(tail[1], 8), 0);
    } else if |tail| == 1 {
      assert tail[1..] == [];
      XorCommutes(tail[0], 0);
    }
  }

  /** At most three shifted bytes make the same word as the bytes padded with zeros. */
  lemma TailIsPaddedWord(tail: Data)
    requires |tail| < 4
    ensures Tail(tail, 0) == Little(tail + seq(4 - |tail|, _ => 0))
  {
    hide Tail;
    hide Xor;
    hide Shift;
    var word := tail + seq(4 - |tail|, _ => 0);
    LittleOfFour(word);
    TailOfThree(tail);
    if |tail| == 2 { TwoBytes(tail[0], tail[1]); }
    if |tail| == 3 { ThreeBytes(tail[0], tail[1], tail[2]); }
  }

  lemma LittleOfFour(word: Data)
    requires |word| == 4
    ensures Little(word) ==
      word[0] as int + 0x100 * (word[1] as int) + 0x1_0000 * (word[2] as int) + 0x100_0000 * (word[3] as int)
  {
    assert word[1..][1..] == word[2..] && word[2..][1..] == word[3..] && word[3..][1..] == [];
    assert Little(word[3..]) == word[3] && Little(word[2..]) == word[2] as int + 256 * Little(word[3..]);
    assert Little(word[1..]) == word[1] as int + 256 * Little(word[2..]);
  }

  lemma {:induction false} WordsAppend(a: Data, b: Data)
    requires |a| % 4 == 0 && |b| % 4 == 0
    ensures Words(a + b) == Xor(Words(a), Words(b))
    decreases |a|
  {
    if a == [] {
      assert a + b == b;
    } else {
      assert (a + b)[..4] == a[..4] && (a + b)[4..] == a[4..] + b;
      WordsAppend(a[4..], b);
      XorAssociates(Little(a[..4]), Words(a[4..]), Words(b));
    }
  }

  /** For payloads of every length the writer's checksum is the reader's. */
  lemma ChecksumsAgree(payload: Data)
    ensures Xor(Words(payload[..Aligned(payload)]), Tail(payload[Aligned(payload)..], 0)) == Words(Padded(payload))
  {
    var whole, tail := payload[..Aligned(payload)], payload[Aligned(payload)..];
    if tail == [] {
      assert Padded(payload) == whole;
      XorCommutes(Words(whole), 0);
    } else {
      var last := tail + seq(4 - |tail|, _ => 0);
      assert Padded(payload) == whole + last;
      WordsAppend(whole, last);
      TailIsPaddedWord(tail);
      assert last[..4] == last && last[4..] == [];
      XorCommutes(Little(last), 0);
    }
  }

  // ---- the frame ----

  /** The checksum both sides compute. */
  function Checksum(payload: Data): (r: nat) { Words(Padded(payload)) }

  function Header(length: nat, checksum: nat): (r: Data)
    ensures |r| == FRAME
  {
    ToLittle(length, 4) + ToLittle(checksum, 4)
  }

  /** Frames a payload; a length that does not fit four bytes raises. */
  method MakeChunk(payload: Data) returns (r: Option<Data>)
    ensures r == if |payload| < Pow256(4) then Some(Header(|payload|, Checksum(payload)) + payload) else None
  {
    hide Words;
    hide Tail;
    hide ToLittle;
    hide Xor;
    PowersOf256();
    var checksum := WriterChecksum(payload);
    ChecksumsAgree(payload);
    if |payload| >= 0x1_0000_0000 { return None; }
    ChecksumFits(payload);
    r := Some(ToLittle(|payload|, 4) + ToLittle(checksum % 0x1_0000_0000, 4) + payload);
  }

  /** What the reader accepts: the payload of a frame with the right length and checksum. */
  function Unframed(data: Data): (r: Result<Data, FrameError>) {
    if |data| < FRAME then Err(TooShort)
    else if Little(data[..4]) != |data| - FRAME then Err(BadLength)
    else if Checksum(data[FRAME..]) != Little(data[4..FRAME]) then Err(BadChecksum)
    else Ok(data[FRAME..])
  }

  method CheckFrame(data: Data) returns (r: Result<Data, FrameError>)
    ensures r == Unframed(data)
  {
    if |data| < FRAME { return Err(TooShort); }
    var length, checksum := Little(data[..4]), Little(data[4..FRAME]);
    if length != |data| - FRAME { return Err(BadLength); }
    var payload := data[FRAME..];
    var calculated := ReaderChecksum(payload);
    if calculated != checksum { return Err(BadChecksum); }
    r := Ok(payload);
  }

  lemma WordFits(word: Data)
    requires |word| == 4
    ensures Little(word) < Pow2(32)
  {
    LittleBound(word);
    PowersOf256();
    assert Pow2(8) == 256 && Pow2(16) == 0x1_0000 && Pow2(24) == 0x100_0000 && Pow2(32) == 0x1_0000_0000;
  }

  lemma {:induction false} WordsFit(data: Data)
    requires |data| % 4 == 0
    ensures Words(data) < Pow2(32)
    decreases |data|
  {
    if data != [] {
      WordFits(data[..4]);
      WordsFit(data[4..]);
      XorBound(Little(data[..4]), Words(data[4..]), 32);
    }
  }

  lemma ChecksumFits(payload: Data)
    ensures Checksum(payload) < 0x1_0000_0000
  {
    WordsFit(Padded(payload));
    assert Pow2(8) == 256 && Pow2(16) == 0x1_0000 && Pow2(24) == 0x100_0000 && Pow2(32) == 0x1_0000_0000;
  }

  lemma HeaderReads(length: nat, checksum: nat, payload: Data)
    requires length < Pow256(4) && checksum < Pow256(4)
    ensures var data := Header(length, checksum) + payload;
      Little(data[..4]) == length && Little(data[4..FRAME]) == checksum && data[FRAME..] == payload
  {
    var data := Header(length, checksum) + payload;
    assert data[..4] == ToLittle(length, 4) && data[4..FRAME] == ToLittle(checksum, 4);
    LittleRoundTrip(length, 4);
    LittleRoundTrip(checksum, 4);
  }

  /** Every chunk that can be written is read back. */
  lemma ChunkRoundTrip(payload: Data)
    requires |payload| < Pow256(4)
    ensures Unframed(Header(|payload|, Checksum(payload)) + payload) == Ok(payload)
  {
    ChecksumFits(payload);
    PowersOf256();
    HeaderReads(|payload|, Checksum(payload), payload);
  }

  /** A file is accepted exactly when it is the image of its payload; it is too short below eight bytes, and has a bad
      length when its first word is not the number of bytes after the second. */
  lemma AcceptedIsWritten(data: Data, payload: Data)
    ensures Unframed(data) == Ok(payload) <==>
      |payload| < 0x1_0000_0000 && data == Four(|payload|) + Four(Checksum(payload)) + payload
    ensures Unframed(data) == Err(TooShort) <==> |data| < 8
    ensures Unframed(data) == Err(BadLength) <==> |data| >= 8 && !IsWord(data[..4], |data| - 8)
  {
    hide Checksum, Little, ToLittle;
    PowersOf256();
    LittleBytes(|payload|);
    LittleBytes(Checksum(payload));
    hide Four;
    if |payload| < 0x1_0000_0000 {
      ChunkRoundTrip(payload);
    }
    if |data| >= 8 {
      WordReads(data[..4], |data| - 8);
      ChecksumFits(data[8..]);
      WordReads(data[4..8], Checksum(data[8..]));
      assert data == data[..4] + data[4..8] + data[8..];
    }
  }

  /** The four bytes are the number. */
  ghost predicate IsWord(word: Data, n: nat) { n < 0x1_0000_0000 && word == Four(n) }

  lemma WordReads(word: Data, n: nat)
    requires |word| == 4
    ensures Little(word) == n <==> IsWord(word, n)
  {
    hide Little, ToLittle, Four;
    LittleBytes(n);
    ToLittleRoundTrip(word);
    LittleBound(word);
    PowersOf256();
    if n < 0x1_0000_0000 { LittleRoundTrip(n, 4); }
  }

  // ---- corruption of one word ----

  /** `bad` differs from `good`, but only inside the aligned word at `i`. */
  ghost predicate OneWordChanged(good: Data, bad: Data, i: nat) {
    && i % 4 == 0 && |good| == |bad| && good != bad
    && forall j :: 0 <= j < |good| && !(i <= j < i + 4) ==> good[j] == bad[j]
  }

  lemma SplitAtWord(data: Data, i: nat)
    requires |data| % 4 == 0 && i % 4 == 0 && i + 4 <= |data|
    ensures Words(data) == Xor(Words(data[..i]), Xor(Little(data[i..i + 4]), Words(data[i + 4..])))
  {
    assert data == data[..i] + data[i..];
    WordsAppend(data[..i], data[i..]);
    assert data[i..][..4] == data[i..i + 4] && data[i..][4..] == data[i + 4..];
  }

  lemma ThreeParts(data: Data, i: nat)
    requires i + 4 <= |data|
    ensures data == data[..i] + data[i..i + 4] + data[i + 4..]
  {
  }

  lemma WordsTellApart(good: Data, bad: Data, i: nat)
    requires |good| % 4 == 0 && i + 4 <= |good| && OneWordChanged(good, bad, i)
    ensures Words(good) != Words(bad)
  {
    hide Words;
    hide Xor;
    hide Little;
    hide ToLittle;
    SplitAtWord(good, i);
    SplitAtWord(bad, i);
    assert good[..i] == bad[..i] && good[i + 4..] == bad[i + 4..];
    ThreeParts(good, i);
    ThreeParts(bad, i);
    var a, b, x, y := Words(good[..i]), Words(good[i + 4..]), Little(good[i..i + 4]), Little(bad[i..i + 4]);
    if Words(good) == Words(bad) {
      XorCommutes(a, Xor(x, b));
      XorCommutes(a, Xor(y, b));
      XorCancels(Xor(x, b), Xor(y, b), a);
      XorCancels(x, y, b);
      ToLittleRoundTrip(good[i..i + 4]);
      ToLittleRoundTrip(bad[i..i + 4]);
    }
  }

  /** A change confined to one aligned payload word is always rejected. */
  lemma OneWordCorruptionRejected(good: Data, bad: Data, i: nat)
    requires |good| < Pow256(4) && OneWordChanged(good, bad, i)
    ensures Unframed(Header(|good|, Checksum(good)) + bad) == Err(BadChecksum)
  {
    hide Words, Little, Padded, Header, OneWordChanged, Pow256;
    ChecksumFits(good);
    PowersOf256();
    HeaderReads(|good|, Checksum(good), bad);
    PaddingKeepsChange(good, bad, i);
    WordsTellApart(Padded(good), Padded(bad), i);
  }

  lemma PaddingKeepsChange(good: Data, bad: Data, i: nat)
    requires OneWordChanged(good, bad, i)
    ensures |good| == |bad| && OneWordChanged(Padded(good), Padded(bad), i) && i + 4 <= |Padded(good)|
  {
    var g, b := Padded(good), Padded(bad);
    assert g[..|good|] == good && b[..|bad|] == bad;
    assert i < |good|;
  }
}
