/** The Internet checksum (sections 1 and 2 of RFC 1071). */
module Checksum {
  import opened Arithmetic
  import opened Results

  type Byte = b: int | 0 <= b < 256

  type Word = w: int | 0 <= w < 0x1_0000

  const MAX_WORD: Word := 0xFFFF

  function AddOnesComplement(a: Word, b: Word): Word {
    if a + b < 0x1_0000 then a + b else (a + b + 1) % 0x1_0000
  }

  function BigEndian(high: Byte, low: Byte): Word {
    var h: int, l: int := high, low;
    256 * h + l
  }

  /** The big-endian words of a byte string; the last byte of a string of odd length is a word of its own. */
  function Words(bytes: seq<Byte>): (ws: seq<Word>)
    ensures |ws| == (|bytes| + 1) / 2
  {
    if bytes == [] then []
    else if |bytes| == 1 then [bytes[0]]
    else [BigEndian(bytes[0], bytes[1])] + Words(bytes[2..])
  }

  function Fold(ws: seq<Word>): Word
    requires ws != []
  {
    if |ws| == 1 then ws[0] else AddOnesComplement(Fold(ws[..|ws| - 1]), ws[|ws| - 1])
  }

  /** Exclusive or of two numbers, bit by bit. */
  function Xor(a: nat, b: nat): nat {
    if a == 0 && b == 0 then 0 else 2 * Xor(a / 2, b / 2) + if a % 2 != b % 2 then 1 else 0
  }

  function TwoToThe(k: nat): nat {
    if k == 0 then 1 else 2 * TwoToThe(k - 1)
  }

  /** Exclusive or with a number of ones is the difference to it. */
  lemma {:induction false} XorWithOnes(w: nat, k: nat)
    requires w < TwoToThe(k)
    ensures Xor(w, TwoToThe(k) - 1) == TwoToThe(k) - 1 - w
  {
    if k > 0 {
      var ones := TwoToThe(k) - 1;
      assert ones / 2 == TwoToThe(k - 1) - 1 && ones % 2 == 1;
      XorWithOnes(w / 2, k - 1);
    }
  }

  function Complement(w: Word): (r: Word)
    ensures r == MAX_WORD - w
  {
    assert TwoToThe(8) == 0x100;
    assert TwoToThe(16) == 0x1_0000;
    XorWithOnes(w, 16);
    Xor(w, MAX_WORD)
  }

  method InternetChecksum(bytes: seq<Byte>) returns (r: Result<Word>)
    ensures bytes == [] ==> r.Error?
    ensures bytes != [] ==> r == Ok(Complement(Fold(Words(bytes))))
  {
    var chunks := Words(bytes);
    if chunks == [] {
      return Error;
    }
    var intermediary := chunks[0];
    for i := 1 to |chunks|
      invariant intermediary == Fold(chunks[..i])
    {
      assert chunks[..i + 1][..i] == chunks[..i];
      intermediary := AddOnesComplement(intermediary, chunks[i]);
    }
    assert chunks[..|chunks|] == chunks;
    return Ok(Complement(intermediary));
  }

  /** The words by their bytes: the byte at an even index is the high one, unless it is the last of all. */
  lemma {:induction false} WordAt(bytes: seq<Byte>, i: nat)
    requires i < |Words(bytes)|
    ensures 2 * i + 1 < |bytes| ==>
              Words(bytes)[i] as int == 256 * (bytes[2 * i] as int) + bytes[2 * i + 1] as int
    ensures 2 * i + 1 == |bytes| ==> Words(bytes)[i] == bytes[2 * i]
  {
    if i > 0 {
      WordAt(bytes[2..], i - 1);
    }
  }

  // The fold is the representative of the sum in one's complement arithmetic.

  function Sum(ws: seq<Word>): nat {
    if ws == [] then 0 else ws[0] + Sum(ws[1..])
  }

  /** Zero for zero, and otherwise the number from 1 to 0xFFFF that is equal modulo 0xFFFF. */
  function Representative(s: nat): Word {
    if s == 0 then 0 else 1 + (s - 1) % 0xFFFF
  }

  lemma RepresentativeIsUnique(s: nat, q: int, r: Word)
    requires s == q * 0xFFFF + r && (s > 0 <==> r > 0)
    ensures Representative(s) == r
  {
    if s > 0 {
      DivisionIsUnique(s - 1, 0xFFFF, q, r - 1);
    }
  }

  lemma RepresentativeForm(s: nat) returns (q: nat)
    ensures s == q * 0xFFFF + Representative(s)
    ensures s == 0 <==> Representative(s) == 0
  {
    q := if s == 0 then 0 else (s - 1) / 0xFFFF;
  }

  lemma AddToRepresentative(s: nat, w: Word)
    ensures AddOnesComplement(Representative(s), w) == Representative(s + w)
  {
    hide Representative;
    var q := RepresentativeForm(s);
    var r := Representative(s);
    if r + w < 0x1_0000 {
      RepresentativeIsUnique(s + w, q, r + w);
    } else {
      DivisionIsUnique(r + w + 1, 0x1_0000, 1, r + w - MAX_WORD);
      RepresentativeIsUnique(s + w, q + 1, r + w - MAX_WORD);
    }
  }

  lemma {:induction false} SumConcat(a: seq<Word>, b: seq<Word>)
    ensures Sum(a + b) == Sum(a) + Sum(b)
  {
    if a == [] {
      assert a + b == b;
    } else {
      assert (a + b)[1..] == a[1..] + b;
      SumConcat(a[1..], b);
    }
  }

  lemma SumSnoc(ws: seq<Word>, w: Word)
    ensures Sum(ws + [w]) == Sum(ws) + w
  {
    SumConcat(ws, [w]);
    assert [w][1..] == [];
  }

  lemma {:induction false} SumIsZero(ws: seq<Word>)
    ensures Sum(ws) == 0 <==> forall i :: 0 <= i < |ws| ==> ws[i] == 0
  {
    if ws != [] {
      SumIsZero(ws[1..]);
      assert forall i :: 1 <= i < |ws| ==> ws[i] == ws[1..][i - 1];
    }
  }

  /** The fold over the words is the representative of their sum. */
  lemma {:induction false} FoldRepresentsSum(ws: seq<Word>)
    requires ws != []
    ensures Fold(ws) == Representative(Sum(ws))
    ensures Fold(ws) == 0 <==> forall i :: 0 <= i < |ws| ==> ws[i] == 0
  {
    SumIsZero(ws);
    if |ws| == 1 {
      assert ws == [] + [ws[0]];
      SumSnoc([], ws[0]);
      AddToRepresentative(0, ws[0]);
    } else {
      var front, last := ws[..|ws| - 1], ws[|ws| - 1];
      assert ws == front + [last];
      FoldRepresentsSum(front);
      SumSnoc(front, last);
      AddToRepresentative(Sum(front), last);
    }
  }

  // Verification of a checksum.

  function PutWord(bytes: seq<Byte>, k: nat, w: Word): (r: seq<Byte>)
    requires 2 * k + 2 <= |bytes|
    ensures |r| == |bytes|
  {
    bytes[..2 * k] + [w / 256, w % 256] + bytes[2 * k + 2..]
  }

  lemma {:induction false} WordsConcat(a: seq<Byte>, b: seq<Byte>)
    requires |a| % 2 == 0
    ensures Words(a + b) == Words(a) + Words(b)
  {
    if a == [] {
      assert a + b == b;
    } else {
      assert (a + b)[2..] == a[2..] + b;
      WordsConcat(a[2..], b);
    }
  }

  lemma SumOfPutWord(bytes: seq<Byte>, k: nat, w: Word)
    requires 2 * k + 2 <= |bytes|
    ensures Sum(Words(PutWord(bytes, k, w))) == Sum(Words(PutWord(bytes, k, 0))) + w
  {
    SumOfParts(bytes, k, w);
    SumOfParts(bytes, k, 0);
  }

  lemma SumOfParts(bytes: seq<Byte>, k: nat, w: Word)
    requires 2 * k + 2 <= |bytes|
    ensures Sum(Words(PutWord(bytes, k, w))) == Sum(Words(bytes[..2 * k])) + w + Sum(Words(bytes[2 * k + 2..]))
  {
    var a, m, b := bytes[..2 * k], [w / 256, w % 256], bytes[2 * k + 2..];
    WordsConcat(a + m, b);
    WordsConcat(a, m);
    WordsPair(w / 256, w % 256);
    SumConcat(Words(a + m), Words(b));
    SumSnoc(Words(a), w);
  }

  lemma WordsPair(high: Byte, low: Byte)
    ensures Words([high, low]) == [BigEndian(high, low)]
  {
    assert [high, low][2..] == [];
    assert Words([high, low]) == [BigEndian(high, low)] + [];
  }

  /** Whatever word is put into a zeroed one, the checksum is zero exactly for the checksum of the string with the
      zeroed word, or for 0xFFFF if that checksum is 0 (the other form of zero). */
  lemma ChecksumVerifies(bytes: seq<Byte>, k: nat, w: Word)
    requires 2 * k + 2 <= |bytes|
    ensures var c := Complement(Fold(Words(PutWord(bytes, k, 0))));
            Complement(Fold(Words(PutWord(bytes, k, w)))) == 0 <==> w == c || (c == 0 && w == MAX_WORD)
  {
    hide Representative, Fold, Words, Sum, PutWord;
    var s := Sum(Words(PutWord(bytes, k, 0)));
    SumOfPutWord(bytes, k, w);
    FoldRepresentsSum(Words(PutWord(bytes, k, w)));
    FoldRepresentsSum(Words(PutWord(bytes, k, 0)));
    var q := RepresentativeForm(s);
    var r := Representative(s);
    if 0 < r + w <= MAX_WORD {
      RepresentativeIsUnique(s + w, q, r + w);
    } else if r + w > MAX_WORD {
      RepresentativeIsUnique(s + w, q + 1, r + w - MAX_WORD);
    }
  }

  // Independence of the order of words and of bytes.

  lemma {:induction false} SumPermutation(a: seq<Word>, b: seq<Word>)
    requires multiset(a) == multiset(b)
    ensures Sum(a) == Sum(b)
    decreases |a|
  {
    if a == [] {
      assert |multiset(b)| == 0;
      assert b == [];
    } else {
      var i := Find(a, b);
      SumPermutation(a[1..], b[..i] + b[i + 1..]);
      SumOfMiddle(b[..i], a[0], b[i + 1..]);
    }
  }

  lemma Find(a: seq<Word>, b: seq<Word>) returns (i: nat)
    requires a != [] && multiset(a) == multiset(b)
    ensures i < |b| && b == b[..i] + [a[0]] + b[i + 1..]
    ensures multiset(a[1..]) == multiset(b[..i] + b[i + 1..])
  {
    assert a[0] in multiset(b);
    i :| 0 <= i < |b| && b[i] == a[0];
    var front, back := b[..i], b[i + 1..];
    assert a == [a[0]] + a[1..] && b == front + [a[0]] + back;
    assert multiset(a[1..]) == multiset(a) - multiset{a[0]};
    assert multiset(front + back) == multiset(b) - multiset{a[0]};
  }

  lemma SumOfMiddle(front: seq<Word>, w: Word, back: seq<Word>)
    ensures Sum(front + [w] + back) == w + Sum(front + back)
  {
    SumConcat(front + [w], back);
    SumSnoc(front, w);
    SumConcat(front, back);
  }

  lemma FoldIgnoresOrder(a: seq<Word>, b: seq<Word>)
    requires a != [] && multiset(a) == multiset(b)
    ensures b != [] && Fold(a) == Fold(b)
  {
    assert a[0] in multiset(b);
    SumPermutation(a, b);
    FoldRepresentsSum(a);
    FoldRepresentsSum(b);
  }

  function Swap(w: Word): Word {
    256 * (w % 256) + w / 256
  }

  function SwapBytes(bytes: seq<Byte>): (r: seq<Byte>)
    requires |bytes| % 2 == 0
    ensures |r| == |bytes|
  {
    if bytes == [] then [] else [bytes[1], bytes[0]] + SwapBytes(bytes[2..])
  }

  lemma SwapIsMultiplication(w: Word)
    ensures 256 * w == (w / 256) * 0xFFFF + Swap(w)
    ensures Swap(w) == 0 <==> w == 0
  {
  }

  lemma {:induction false} SwappedSum(bytes: seq<Byte>) returns (q: nat)
    requires |bytes| % 2 == 0
    ensures 256 * Sum(Words(bytes)) == q * 0xFFFF + Sum(Words(SwapBytes(bytes)))
    ensures Sum(Words(bytes)) == 0 <==> Sum(Words(SwapBytes(bytes))) == 0
  {
    if bytes == [] {
      q := 0;
    } else {
      var more := SwappedSum(bytes[2..]);
      var w := BigEndian(bytes[0], bytes[1]);
      var swapped := SwapBytes(bytes);
      assert swapped[2..] == SwapBytes(bytes[2..]);
      DivisionIsUnique(w, 256, bytes[0], bytes[1]);
      assert Words(swapped)[0] == Swap(w) && Words(swapped)[1..] == Words(swapped[2..]);
      assert Words(bytes)[0] == w && Words(bytes)[1..] == Words(bytes[2..]);
      SwapIsMultiplication(w);
      q := more + w / 256;
    }
  }

  /** Swapping the bytes of every word swaps the bytes of the checksum. */
  lemma SwappedChecksum(bytes: seq<Byte>)
    requires bytes != [] && |bytes| % 2 == 0
    ensures Complement(Fold(Words(SwapBytes(bytes)))) == Swap(Complement(Fold(Words(bytes))))
  {
    hide Representative, Fold, Words, Sum, SwapBytes, Swap;
    var s, t := Sum(Words(bytes)), Sum(Words(SwapBytes(bytes)));
    FoldRepresentsSum(Words(bytes));
    FoldRepresentsSum(Words(SwapBytes(bytes)));
    var q := SwappedSum(bytes);
    var p := RepresentativeForm(s);
    var r := Representative(s);
    SwappedRepresentative(s, t, p, q, r);
    SwapComplement(r);
  }

  lemma SwappedRepresentative(s: nat, t: nat, p: int, q: int, r: Word)
    requires s == p * 0xFFFF + r && 256 * s == q * 0xFFFF + t
    requires (s == 0 <==> r == 0) && (s == 0 <==> t == 0)
    ensures Representative(t) == Swap(r)
  {
    SwapIsMultiplication(r);
    assert t == (256 * p + r / 256 - q) * 0xFFFF + Swap(r);
    RepresentativeIsUnique(t, 256 * p + r / 256 - q, Swap(r));
  }

  lemma SwapComplement(w: Word)
    ensures Complement(Swap(w)) == Swap(Complement(w))
  {
    DivisionIsUnique(Complement(w), 256, 255 - w / 256, 255 - w % 256);
  }

  // Strings of odd length.

  /** RFC 1071 pads a string of odd length with a zero byte; here the last byte is a word itself, which gives
      the same checksum only if it is zero. */
  lemma OddLengthIsNotPadded(bytes: seq<Byte>)
    requires |bytes| % 2 == 1
    ensures Fold(Words(bytes)) == Fold(Words(bytes + [0])) <==> bytes[|bytes| - 1] == 0
  {
    hide Representative, Fold, Sum, BigEndian, Words;
    var front, last := bytes[..|bytes| - 1], bytes[|bytes| - 1];
    OddFold(bytes);
    PaddedFold(bytes);
    PaddingMatters(Sum(Words(front)), last);
  }

  lemma OddFold(bytes: seq<Byte>)
    requires |bytes| % 2 == 1
    ensures Fold(Words(bytes)) == Representative(Sum(Words(bytes[..|bytes| - 1])) + bytes[|bytes| - 1])
  {
    hide Representative, Fold, Sum, Words;
    var front, last := bytes[..|bytes| - 1], bytes[|bytes| - 1];
    assert bytes == front + [last];
    WordsSingle(last);
    FoldWithLast(front, [last], last);
  }

  lemma WordsSingle(b: Byte)
    ensures Words([b]) == [b]
  {
  }

  lemma PaddedFold(bytes: seq<Byte>)
    requires |bytes| % 2 == 1
    ensures Fold(Words(bytes + [0])) ==
            Representative(Sum(Words(bytes[..|bytes| - 1])) + BigEndian(bytes[|bytes| - 1], 0))
  {
    hide Representative, Fold, Sum, BigEndian, Words;
    var front, last := bytes[..|bytes| - 1], bytes[|bytes| - 1];
    assert bytes + [0] == front + [last, 0];
    PairFold(front, last);
  }

  lemma PairFold(front: seq<Byte>, last: Byte)
    requires |front| % 2 == 0
    ensures Fold(Words(front + [last, 0])) == Representative(Sum(Words(front)) + BigEndian(last, 0))
  {
    hide *;
    WordsPair(last, 0);
    FoldWithLast(front, [last, 0], BigEndian(last, 0));
  }

  lemma FoldWithLast(bytes: seq<Byte>, more: seq<Byte>, w: Word)
    requires |bytes| % 2 == 0 && Words(more) == [w]
    ensures Fold(Words(bytes + more)) == Representative(Sum(Words(bytes)) + w)
  {
    WordsConcat(bytes, more);
    FoldRepresentsSum(Words(bytes) + [w]);
    SumSnoc(Words(bytes), w);
  }

  lemma PaddingMatters(s: nat, last: Byte)
    ensures Representative(s + last) == Representative(s + BigEndian(last, 0)) <==> last == 0
  {
    if last != 0 {
      var a, b := s + last - 1, s + BigEndian(last, 0) - 1;
      if a % 0xFFFF == b % 0xFFFF {
        assert (b / 0xFFFF - a / 0xFFFF) * 0xFFFF == 255 * last;
        SmallMultiple(b / 0xFFFF - a / 0xFFFF, 0xFFFF);
        assert false;
      }
    }
  }
}
