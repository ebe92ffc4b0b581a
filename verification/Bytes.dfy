/** Bytes, 32-bit words and buffers. A little-endian layout stands in for the native loads
    and stores of the serializers; a 64-bit field is its low word followed by its high word. */
module Bytes {
  type Byte = x: int | 0 <= x < 256
  type U32 = x: int | 0 <= x < 0x1_0000_0000
  type U64 = x: int | 0 <= x < 0x1_0000_0000_0000_0000

  const TWO_32: nat := 0x1_0000_0000

  function Min(a: nat, b: nat): nat { if a <= b then a else b }

  function Max(a: nat, b: nat): nat { if a <= b then b else a }

  function Lo(n: U64): U32 { n % TWO_32 }

  function Hi(n: U64): U32 { n / TWO_32 }

  /** Byte `d` (0 to 3) of `n`, least significant first. */
  function Digit(n: nat, d: nat): Byte {
    if d == 0 then n % 256
    else if d == 1 then n / 0x100 % 256
    else if d == 2 then n / 0x100 / 0x100 % 256
    else n / 0x100 / 0x100 / 0x100 % 256
  }

  /** A run of 32-bit words; what does not fit in 32 bits is cut off. */
  function EncWords(ws: seq<nat>): (r: seq<Byte>)
    ensures |r| == 4 * |ws|
  {
    seq(4 * |ws|, j requires 0 <= j < 4 * |ws| => Digit(ws[j / 4], j % 4))
  }

  function Get4(s: seq<Byte>, p: nat): (r: U32)
    requires p + 4 <= |s|
  {
    var b0: nat, b1: nat, b2: nat, b3: nat := s[p], s[p + 1], s[p + 2], s[p + 3];
    b0 + 0x100 * b1 + 0x1_0000 * b2 + 0x100_0000 * b3
  }

  function Get8(s: seq<Byte>, p: nat): (r: U64)
    requires p + 8 <= |s|
  {
    Get4(s, p) + TWO_32 * Get4(s, p + 4)
  }

  lemma DigitsSum(n: U32)
    ensures Digit(n, 0) + 0x100 * Digit(n, 1) + 0x1_0000 * Digit(n, 2) + 0x100_0000 * Digit(n, 3) == n
  {
  }

  /** `bytes` occurs in `s` at position `p`. */
  ghost predicate At(s: seq<Byte>, p: nat, bytes: seq<Byte>) {
    p + |bytes| <= |s| && s[p..p + |bytes|] == bytes
  }

  lemma AtSplit(s: seq<Byte>, p: nat, a: seq<Byte>, b: seq<Byte>)
    requires At(s, p, a + b)
    ensures At(s, p, a) && At(s, p + |a|, b)
  {
    var t := s[p..p + |a + b|];
    assert t[..|a|] == a && t[|a|..] == b;
  }

  /** The word stored at index `i` of an encoded run is read back. */
  lemma WordAt(s: seq<Byte>, p: nat, ws: seq<nat>, i: nat)
    requires At(s, p, EncWords(ws)) && i < |ws| && ws[i] < TWO_32
    ensures p + 4 * i + 4 <= |s| && Get4(s, p + 4 * i) == ws[i]
  {
    var t := EncWords(ws);
    forall d | 0 <= d < 4 ensures s[p + 4 * i + d] == Digit(ws[i], d) {
      assert s[p..p + |t|][4 * i + d] == t[4 * i + d];
      assert (4 * i + d) / 4 == i && (4 * i + d) % 4 == d;
    }
    DigitsSum(ws[i]);
    assert s[p + 4 * i + 0] == Digit(ws[i], 0);
  }

  /** A word is stored least significant byte first. */
  lemma WordBytes(ws: seq<nat>, i: nat)
    requires i < |ws| && ws[i] < TWO_32
    ensures var w := ws[i];
            EncWords(ws)[4 * i..4 * i + 4]
            == [w % 0x100, w / 0x100 % 0x100, w / 0x1_0000 % 0x100, w / 0x100_0000]
  {
    var t, w := EncWords(ws), ws[i];
    forall d | 0 <= d < 4 ensures t[4 * i + d] == Digit(w, d) {
      assert (4 * i + d) / 4 == i && (4 * i + d) % 4 == d;
    }
    assert t[4 * i + 0] == Digit(w, 0);
    DigitsAre(w);
  }

  lemma DigitsAre(w: U32)
    ensures Digit(w, 0) == w % 0x100 && Digit(w, 1) == w / 0x100 % 0x100
    ensures Digit(w, 2) == w / 0x1_0000 % 0x100 && Digit(w, 3) == w / 0x100_0000
  {
  }

  /** Storing the word read at `p` restores the bytes it was read from. */
  lemma WordBack(s: seq<Byte>, p: nat)
    requires p + 4 <= |s|
    ensures EncWords([Get4(s, p)]) == s[p..p + 4]
  {
    var b0: nat, b1: nat, b2: nat, b3: nat := s[p], s[p + 1], s[p + 2], s[p + 3];
    var n := Get4(s, p);
    assert n / 0x100 == b1 + 0x100 * b2 + 0x1_0000 * b3;
    assert n / 0x100 / 0x100 == b2 + 0x100 * b3;
    assert n / 0x100 / 0x100 / 0x100 == b3;
    assert Digit(n, 0) == b0 && Digit(n, 1) == b1 && Digit(n, 2) == b2 && Digit(n, 3) == b3;
  }

  function Words(s: seq<Byte>, n: nat): (ws: seq<nat>)
    requires 4 * n <= |s|
    ensures |ws| == n
  {
    seq(n, i requires 0 <= i < n => Get4(s, 4 * i))
  }

  /** Storing all the words of a buffer restores its bytes. */
  lemma {:induction false} WordsBack(s: seq<Byte>, n: nat)
    requires 4 * n <= |s|
    ensures EncWords(Words(s, n)) == s[..4 * n]
    decreases n
  {
    hide EncWords, Get4;
    if n == 0 {
      NoWords(s, 0);
    } else {
      WordsBack(s, n - 1);
      WordBack(s, 4 * (n - 1));
      assert Words(s, n) == Words(s, n - 1) + [Get4(s, 4 * (n - 1))];
      EncWordsSnoc(Words(s, n - 1), Get4(s, 4 * (n - 1)));
      assert s[..4 * n] == s[..4 * (n - 1)] + s[4 * (n - 1)..4 * n];
    }
  }

  lemma LongHalves(s: seq<Byte>, p: nat)
    requires p + 8 <= |s|
    ensures Lo(Get8(s, p)) == Get4(s, p) && Hi(Get8(s, p)) == Get4(s, p + 4)
  {
    hide Get4;
  }

  lemma LongAt(s: seq<Byte>, p: nat, ws: seq<nat>, i: nat, n: U64)
    requires At(s, p, EncWords(ws)) && 2 * i + 1 < |ws| && ws[2 * i] == Lo(n) && ws[2 * i + 1] == Hi(n)
    ensures p + 8 * i + 8 <= |s| && Get8(s, p + 8 * i) == n
  {
    WordAt(s, p, ws, 2 * i);
    WordAt(s, p, ws, 2 * i + 1);
  }

  lemma EncWordsSnoc(ws: seq<nat>, w: nat)
    ensures EncWords(ws + [w]) == EncWords(ws) + EncWords([w])
  {
    forall j | 0 <= j < 4 * |ws| + 4
      ensures EncWords(ws + [w])[j] == (EncWords(ws) + EncWords([w]))[j]
    {
      if j >= 4 * |ws| {
        var d := j - 4 * |ws|;
        assert j / 4 == |ws| && j % 4 == d && d / 4 == 0 && d % 4 == d;
      }
    }
  }

  /** `s` with `bytes` stored over it from position `p`. */
  function Overwrite(s: seq<Byte>, p: nat, bytes: seq<Byte>): (r: seq<Byte>)
    requires p + |bytes| <= |s|
    ensures |r| == |s|
  {
    s[..p] + bytes + s[p + |bytes|..]
  }

  lemma OverwriteSplit(s: seq<Byte>, p: nat, a: seq<Byte>, b: seq<Byte>)
    requires p + |a| + |b| <= |s|
    ensures Overwrite(s, p, a + b) == Overwrite(Overwrite(s, p, a), p + |a|, b)
    ensures Overwrite(s, p, a)[p + |a|..] == s[p + |a|..]
  {
  }

  /** memcpy into the buffer. */
  method PutBytes(buf: array<Byte>, pos: nat, bytes: seq<Byte>)
    requires pos + |bytes| <= buf.Length
    modifies buf
    ensures buf[..] == Overwrite(old(buf[..]), pos, bytes)
  {
    forall i | 0 <= i < |bytes| { buf[pos + i] := bytes[i]; }
  }

  /** Stores one word and advances the cursor. The ghost arguments name the words already
      stored from `base` on, over the original contents `was`. */
  method PutWord(buf: array<Byte>, pos: nat, data: nat, ghost was: seq<Byte>, ghost base: nat, ghost done: seq<nat>)
    returns (next: nat, ghost words: seq<nat>)
    requires pos + 4 <= buf.Length == |was|
    requires pos == base + 4 * |done|
    requires buf[..] == Overwrite(was, base, EncWords(done))
    modifies buf
    ensures words == done + [data] && next == pos + 4 == base + 4 * |words|
    ensures buf[..] == Overwrite(was, base, EncWords(words))
  {
    var bytes := EncWords([data]);
    PutBytes(buf, pos, bytes);
    EncWordsSnoc(done, data);
    OverwriteSplit(was, base, EncWords(done), bytes);
    next, words := pos + 4, done + [data];
  }

  /** Stores a 64-bit field. */
  method PutLong(buf: array<Byte>, pos: nat, data: U64, ghost was: seq<Byte>, ghost base: nat, ghost done: seq<nat>)
    returns (next: nat, ghost words: seq<nat>)
    requires pos + 8 <= buf.Length == |was|
    requires pos == base + 4 * |done|
    requires buf[..] == Overwrite(was, base, EncWords(done))
    modifies buf
    ensures words == done + [Lo(data), Hi(data)] && next == pos + 8 == base + 4 * |words|
    ensures buf[..] == Overwrite(was, base, EncWords(words))
  {
    next, words := PutWord(buf, pos, Lo(data), was, base, done);
    next, words := PutWord(buf, next, Hi(data), was, base, words);
  }

  lemma NoWords(s: seq<Byte>, p: nat)
    requires p <= |s|
    ensures EncWords([]) == [] && Overwrite(s, p, EncWords([])) == s
  {
  }
}
