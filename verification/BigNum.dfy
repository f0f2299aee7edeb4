/** The 1024-bit words of the tick-array bitmap: sixteen 64-bit words, least significant first.
    The word loops compute what they should on the number they stand for. */
module BigNum {
  import opened Types
  import opened Arith
  import opened Bits

  const WORDS: int := 16

  function Val(words: seq<u64>): nat {
    if words == [] then 0 else words[0] + Q64 * Val(words[1..])
  }

  lemma Pow2At64()
    ensures Pow2(64) == Q64
  {
    hide Pow2;
    Pow2Small();
    Pow2Add(8, 8);
    Pow2Add(16, 16);
    Pow2Add(32, 32);
  }

  lemma Pow2Word(n: nat)
    ensures Pow2(64 * (n + 1)) == Q64 * Pow2(64 * n)
  {
    hide Pow2;
    Pow2At64();
    Pow2Add(64 * n, 64);
  }

  lemma {:induction false} ValBound(words: seq<u64>)
    ensures Val(words) < Pow2(64 * |words|)
  {
    hide Pow2;
    if words == [] {
      Pow2Small();
    } else {
      ValBound(words[1..]);
      Pow2Word(|words| - 1);
    }
  }

  lemma {:induction false} ValAppend(low: seq<u64>, high: seq<u64>)
    ensures Val(low + high) == Val(low) + Pow2(64 * |low|) * Val(high)
    decreases |low|
  {
    hide Pow2;
    if low == [] {
      Pow2Small();
      assert low + high == high;
    } else {
      Pow2Word(|low| - 1);
      assert (low + high)[1..] == low[1..] + high;
      ValAppend(low[1..], high);
      Distribute(Q64, Val(low[1..]), Pow2(64 * |low[1..]|) * Val(high));
      Rotate(Q64, Pow2(64 * |low[1..]|), Val(high));
    }
  }

  /** Digit k of the number is digit k % 64 of word k / 64. */
  lemma {:induction false} ValBit(words: seq<u64>, k: nat)
    requires k < 64 * |words|
    ensures Bit(Val(words), k) == Bit(words[k / 64], k % 64)
    decreases |words|
  {
    hide Pow2, Bit;
    var rest := Val(words[1..]);
    Pow2At64();
    DivUnique(Val(words), Q64, rest, words[0]);
    if k < 64 {
      BitMod(Val(words), 64, k);
    } else {
      BitDown(Val(words), 64, k - 64);
      ValBit(words[1..], k - 64);
      assert (k - 64) / 64 == k / 64 - 1 && (k - 64) % 64 == k % 64;
    }
  }

  lemma ValNoBit(words: seq<u64>, k: nat)
    requires k >= 64 * |words|
    ensures !Bit(Val(words), k)
  {
    ValBound(words);
    Pow2Mono(64 * |words|, k);
    FloorIff(Val(words), Pow2(k), 1);
  }

  function Zeros(n: nat): (s: seq<u64>)
    ensures |s| == n
  {
    seq(n, _ => 0)
  }

  lemma {:induction false} ValZeros(n: nat)
    ensures Val(Zeros(n)) == 0
  {
    if n > 0 {
      assert Zeros(n)[1..] == Zeros(n - 1);
      ValZeros(n - 1);
    }
  }

  // ---- Shift left ----

  /** One word shifted left, its high digits dropped. */
  function ShlWord(w: u64, r: nat): u64 {
    MulLe(0, w, Pow2(r));
    w * Pow2(r) % Q64
  }

  /** The digits a left shift by `r` carries out of a word. */
  function CarryUp(w: u64, r: nat): nat
    requires r < 64
  {
    Shr(w, 64 - r)
  }

  /** A shifted word and a carry from below it fit together. */
  lemma ShlWordFits(w: u64, r: nat, carry: nat)
    requires r < 64 && carry < Pow2(r)
    ensures w * Pow2(r) == ShlWord(w, r) + Q64 * CarryUp(w, r)
    ensures CarryUp(w, r) < Pow2(r)
    ensures ShlWord(w, r) + carry < Q64
  {
    hide Pow2;
    var p, p' := Pow2(r), Pow2(64 - r);
    Pow2At64();
    Pow2Add(r, 64 - r);
    SplitWord(w, p, p');
    FloorIff(w, p', p);
  }

  lemma SplitWord(w: nat, p: nat, p': nat)
    requires 0 < p && 0 < p' && p * p' == Q64
    ensures 0 <= w * p && w * p == w * p % Q64 + Q64 * (w / p') && w * p % Q64 + p <= Q64
  {
    var q, rest := w / p', w % p';
    DivBounds(w, p');
    Distribute(p, q * p', rest);
    Rotate(q, p', p);
    MulLe(rest, p' - 1, p);
    MulLe(0, rest, p);
    Expand(p', p);
    assert p' * p == p * p';
    DivUnique(w * p, Q64, q, rest * p);
  }

  function ShlWords(words: seq<u64>, r: nat, carry: nat): (s: seq<u64>)
    requires r < 64 && carry < Pow2(r)
    ensures |s| == |words|
  {
    if words == [] then []
    else
      ShlWordFits(words[0], r, carry);
      [ShlWord(words[0], r) + carry] + ShlWords(words[1..], r, CarryUp(words[0], r))
  }

  /** The digits shifted out at the top. */
  function ShlOut(words: seq<u64>, r: nat, carry: nat): nat
    requires r < 64 && carry < Pow2(r)
  {
    if words == [] then carry
    else
      ShlWordFits(words[0], r, carry);
      ShlOut(words[1..], r, CarryUp(words[0], r))
  }

  lemma {:induction false} ShlWordsValue(words: seq<u64>, r: nat, carry: nat)
    requires r < 64 && carry < Pow2(r)
    ensures Val(ShlWords(words, r, carry)) + ShlOut(words, r, carry) * Pow2(64 * |words|)
            == Val(words) * Pow2(r) + carry
    decreases |words|
  {
    hide Pow2, ShlWord, CarryUp;
    if words == [] {
      Pow2Small();
    } else {
      var rest, up, p := words[1..], CarryUp(words[0], r), Pow2(r);
      ShlWordFits(words[0], r, carry);
      ShlWordsValue(rest, r, up);
      Pow2Word(|rest|);
      assert ShlWords(words, r, carry)[1..] == ShlWords(rest, r, up);
      AddWord(words[0], Val(rest), p, ShlWord(words[0], r), up, Val(ShlWords(rest, r, up)), ShlOut(rest, r, up),
          Pow2(64 * |rest|));
    }
  }

  lemma AddWord(w: nat, rest: nat, p: nat, low: nat, up: nat, shifted: nat, out: nat, top: nat)
    requires w * p == low + Q64 * up && shifted + out * top == rest * p + up
    ensures low + Q64 * shifted + out * (Q64 * top) == (w + Q64 * rest) * p
  {
    Distribute(p, w, Q64 * rest);
    Rotate(Q64, rest, p);
    Rotate(out, Q64, top);
    Rotate(Q64, out, top);
    Distribute(Q64, shifted, out * top);
    Distribute(Q64, rest * p, up);
  }

  lemma {:induction false} ShlWordsAt(words: seq<u64>, r: nat, carry: nat, i: nat)
    requires r < 64 && carry < Pow2(r) && i < |words|
    ensures ShlWords(words, r, carry)[i] == ShlWord(words[i], r) + if i == 0 then carry else CarryUp(words[i - 1], r)
    decreases |words|
  {
    hide Pow2, ShlWord, CarryUp;
    ShlWordFits(words[0], r, carry);
    if i > 0 { ShlWordsAt(words[1..], r, CarryUp(words[0], r), i - 1); }
  }

  /** Moving the shifted low words up by whole words is the product, reduced. */
  lemma ShlValue(words: seq<u64>, up: nat, r: nat)
    requires |words| == WORDS && up <= WORDS && r < 64 && 0 < Pow2(r)
    ensures Val(Zeros(up) + ShlWords(words[..WORDS - up], r, 0)) == Val(words) * Pow2(64 * up + r) % Pow2(1024)
  {
    hide Pow2, Val, ShlWords, ShlOut;
    var m := WORDS - up;
    var low, high := words[..m], words[m..];
    var shifted := ShlWords(low, r, 0);
    assert words == low + high;
    ValAppend(low, high);
    ValAppend(Zeros(up), shifted);
    ValZeros(up);
    ShlWordsValue(low, r, 0);
    Pow2Add(64 * up, r);
    Pow2Add(64 * m, 64 * up);
    ValBound(shifted);
    Reduce(Val(low), Val(high), Pow2(64 * m), Pow2(64 * up), Pow2(r), Val(shifted), ShlOut(low, r, 0));
  }

  lemma Reduce(low: nat, high: nat, top: nat, up: nat, p: nat, shifted: nat, out: nat)
    requires up > 0 && shifted < top && shifted + out * top == low * p
    ensures 0 < top * up && 0 <= (low + top * high) * (up * p)
    ensures up * shifted == (low + top * high) * (up * p) % (top * up)
  {
    var q := out + high * p;
    MulLt(0, top, up);
    MulLe(0, high, p);
    MulLt(shifted, top, up);
    assert (low + top * high) * (up * p) == q * (top * up) + up * shifted
        by { Regroup(low, high, top, up, p, shifted, out); }
    DivUnique((low + top * high) * (up * p), top * up, q, up * shifted);
  }

  lemma Regroup(low: nat, high: nat, top: nat, up: nat, p: nat, shifted: nat, out: nat)
    requires shifted + out * top == low * p
    ensures (low + top * high) * (up * p) == (out + high * p) * (top * up) + up * shifted
  {
    Distribute(up * p, low, top * high);
    Rotate(low, up, p);
    Rotate(up, low, p);
    Distribute(up, shifted, out * top);
    Distribute(top * up, out, high * p);
    Rotate(out, top, up);
    Rotate(up, out, top);
    Rotate(top, high, up * p);
    Rotate(high, p, top * up);
    Rotate(high, top, up * p);
    Rotate(top, up, p);
    Rotate(p, top, up);
    assert top * (up * p) == p * (top * up);
  }

  // ---- Shift right ----

  /** The digits a right shift by `r` moves down from the word above. */
  function CarryDown(w: u64, r: nat): u64
    requires r < 64
  {
    ShlWord(w, 64 - r)
  }

  lemma ShrWordFits(w: u64, above: u64, r: nat)
    requires 0 < r < 64
    ensures (Shr(w, r) + CarryDown(above, r)) * Pow2(r) == w - w % Pow2(r) + Q64 * (above % Pow2(r))
    ensures Shr(w, r) + CarryDown(above, r) < Q64
  {
    hide Pow2;
    var p, p' := Pow2(r), Pow2(64 - r);
    Pow2At64();
    Pow2Add(r, 64 - r);
    ShlWordFits(above, 64 - r, 0);
    SplitDown(w, above, p, p');
  }

  lemma SplitDown(w: nat, above: nat, p: nat, p': nat)
    requires 0 < p && 0 < p' && p * p' == Q64 && w < Q64
    ensures 0 <= above * p'
    ensures (w / p + above * p' % Q64) * p == w - w % p + Q64 * (above % p)
    ensures w / p + above * p' % Q64 < Q64
  {
    assert p' * p == p * p';
    SplitWord(above, p', p);
    DivBounds(above, p);
    DivBounds(w, p);
    var c := above * p' % Q64;
    // c == p' * (above % p)
    Distribute(p', (above / p) * p, above % p);
    Rotate(above / p, p, p');
    assert c == (above % p) * p';
    Rotate(above % p, p', p);
    Distribute(p, w / p, c);
    FloorIff(w, p, p');
  }

  function ShrWords(words: seq<u64>, r: nat): (s: seq<u64>)
    requires 0 < r < 64
    ensures |s| == |words|
  {
    if words == [] then []
    else
      var above := if |words| > 1 then words[1] else 0;
      ShrWordFits(words[0], above, r);
      [Shr(words[0], r) + CarryDown(above, r)] + ShrWords(words[1..], r)
  }

  lemma {:induction false} ShrWordsValue(words: seq<u64>, r: nat)
    requires 0 < r < 64
    ensures words != [] ==> Val(ShrWords(words, r)) * Pow2(r) + words[0] % Pow2(r) == Val(words)
    decreases |words|
  {
    hide Pow2, CarryDown, Shr;
    if words != [] {
      var rest, p := words[1..], Pow2(r);
      var above := if |words| > 1 then words[1] else 0;
      ShrWordFits(words[0], above, r);
      ShrWordsValue(rest, r);
      assert ShrWords(words, r)[1..] == ShrWords(rest, r);
      DivUnique(0, p, 0, 0);
      AddWordDown(words[0], words[0] % p, Shr(words[0], r) + CarryDown(above, r), above % p, Val(ShrWords(rest, r)),
          Val(rest), p);
    }
  }

  lemma AddWordDown(word: nat, lost: nat, moved: nat, gained: nat, shifted: nat, rest: nat, p: nat)
    requires moved * p == word - lost + Q64 * gained && shifted * p + gained == rest
    ensures (moved + Q64 * shifted) * p + lost == word + Q64 * rest
  {
    Distribute(p, moved, Q64 * shifted);
    Rotate(Q64, shifted, p);
    Distribute(Q64, shifted * p, gained);
  }

  lemma {:induction false} ShrWordsAt(words: seq<u64>, r: nat, i: nat)
    requires 0 < r < 64 && i < |words|
    ensures ShrWords(words, r)[i] == Shr(words[i], r) + CarryDown(if i + 1 < |words| then words[i + 1] else 0, r)
    decreases |words|
  {
    hide Pow2, CarryDown, Shr;
    var above := if |words| > 1 then words[1] else 0;
    ShrWordFits(words[0], above, r);
    if i > 0 { ShrWordsAt(words[1..], r, i - 1); }
  }

  lemma ShrValue(words: seq<u64>, down: nat, r: nat)
    requires |words| == WORDS && down <= WORDS && 0 < r < 64
    ensures Val(ShrWords(words[down..], r) + Zeros(down)) == Shr(Val(words), 64 * down + r)
  {
    hide Pow2, Val, ShrWords;
    var high := words[down..];
    ShrWholeWords(words, down);
    ValAppend(ShrWords(high, r), Zeros(down));
    ValZeros(down);
    ShrWordsValue(high, r);
    Pow2Add(64 * down, r);
    FloorFloor(Val(words), Pow2(64 * down), Pow2(r));
    if high == [] {
      ValZeros(0);
      assert high == Zeros(0) && ShrWords(high, r) == Zeros(0);
      FloorIff(0, Pow2(r), 1);
    } else {
      DivBounds(high[0], Pow2(r));
      DivUnique(Val(high), Pow2(r), Val(ShrWords(high, r)), high[0] % Pow2(r));
    }
  }

  lemma ShrWholeWords(words: seq<u64>, down: nat)
    requires down <= |words|
    ensures Val(words[down..]) == Shr(Val(words), 64 * down)
    ensures Val(words[down..] + Zeros(down)) == Shr(Val(words), 64 * down)
  {
    hide Pow2, Val;
    assert words == words[..down] + words[down..];
    ValAppend(words[..down], words[down..]);
    ValBound(words[..down]);
    ValAppend(words[down..], Zeros(down));
    ValZeros(down);
    DivUnique(Val(words), Pow2(64 * down), Val(words[down..]), Val(words[..down]));
  }

  // ---- The word loops ----

  lemma ShlWordsAre(words: seq<u64>, ret: seq<u64>, up: nat, r: nat)
    requires |words| == |ret| == WORDS && up <= WORDS && r < 64 && 0 < Pow2(r)
    requires forall i :: 0 <= i < up ==> ret[i] == 0
    requires forall i :: up <= i < WORDS ==>
               ret[i] == ShlWord(words[i - up], r) + if i == up then 0 else CarryUp(words[i - up - 1], r)
    ensures ret == Zeros(up) + ShlWords(words[..WORDS - up], r, 0)
  {
    hide Pow2, ShlWord, CarryUp, ShlWords;
    forall i | up <= i < WORDS
      ensures ret[i] == ShlWords(words[..WORDS - up], r, 0)[i - up]
    {
      ShlWordsAt(words[..WORDS - up], r, 0, i - up);
    }
  }

  lemma NoShift(w: u64)
    ensures ShlWord(w, 0) == w && CarryUp(w, 0) == 0 && Shr(w, 0) == w
  {
    Pow2At64();
    hide Pow2;
    Pow2Small();
    DivUnique(w, Q64, 0, w);
    FloorIff(w, Q64, 1);
  }

  method ShiftLeft(original: array<u64>, shift: nat) returns (ret: array<u64>)
    requires original.Length == WORDS
    ensures fresh(ret) && ret.Length == WORDS
    ensures Val(ret[..]) == Val(original[..]) * Pow2(shift) % Pow2(1024)
  {
    hide Pow2, Val, ShlWord, CarryUp, ShlWords;
    ret := new u64[WORDS](_ => 0);
    var wordShift, bitShift := shift / 64, shift % 64;
    for i := Min(wordShift, WORDS) to WORDS
      invariant forall k :: 0 <= k < wordShift && k < WORDS ==> ret[k] == 0
      invariant forall k :: wordShift <= k < i ==> ret[k] == ShlWord(original[k - wordShift], bitShift)
    {
      ret[i] := ShlWord(original[i - wordShift], bitShift);
    }
    if bitShift > 0 {
      AddCarriesUp(original, ret, wordShift, bitShift);
    } else {
      forall k | 0 <= k < WORDS
        ensures CarryUp(original[k], 0) == 0
      {
        NoShift(original[k]);
      }
    }
    if shift <= 1024 {
      ShlWordsAre(original[..], ret[..], wordShift, bitShift);
      ShlValue(original[..], wordShift, bitShift);
    } else {
      AllZeros(ret[..]);
      ShiftedOut(Val(original[..]), shift);
    }
  }

  lemma AllZeros(words: seq<u64>)
    requires |words| == WORDS && forall k :: 0 <= k < WORDS ==> words[k] == 0
    ensures Val(words) == 0
  {
    hide Val;
    ValZeros(WORDS);
    assert words == Zeros(WORDS);
  }

  /** From 1024 places on nothing is left, upwards or downwards. */
  lemma ShiftedOut(v: nat, shift: nat)
    requires shift >= 1024
    ensures v * Pow2(shift) % Pow2(1024) == 0
    ensures v < Pow2(1024) ==> Shr(v, shift) == 0
  {
    hide Pow2;
    Pow2Add(1024, shift - 1024);
    Pow2Mono(1024, shift);
    var p, rest := Pow2(1024), Pow2(shift - 1024);
    Rotate(v, p, rest);
    MulLe(0, v, rest);
    DivUnique(v * Pow2(shift), p, v * rest, 0);
    FloorIff(v, Pow2(shift), 1);
  }

  /** The carry loop of the left shift; no addition overflows a word. */
  method AddCarriesUp(original: array<u64>, ret: array<u64>, wordShift: nat, bitShift: nat)
    requires original.Length == ret.Length == WORDS && original != ret && 0 < bitShift < 64
    requires forall k :: wordShift <= k < WORDS ==> ret[k] == ShlWord(original[k - wordShift], bitShift)
    modifies ret
    ensures forall k :: 0 <= k < wordShift && k < WORDS ==> ret[k] == old(ret[k])
    ensures forall k :: wordShift <= k < WORDS ==>
              ret[k] == ShlWord(original[k - wordShift], bitShift)
                  + if k == wordShift then 0 else CarryUp(original[k - wordShift - 1], bitShift)
  {
    hide Pow2, ShlWord, CarryUp;
    for i := Min(wordShift + 1, WORDS) to WORDS
      invariant forall k :: 0 <= k < wordShift && k < WORDS ==> ret[k] == old(ret[k])
      invariant forall k :: wordShift <= k < i ==>
                  ret[k] == ShlWord(original[k - wordShift], bitShift)
                      + if k == wordShift then 0 else CarryUp(original[k - wordShift - 1], bitShift)
      invariant forall k :: i <= k < WORDS ==> ret[k] == ShlWord(original[k - wordShift], bitShift)
    {
      ShlWordFits(original[i - 1 - wordShift], bitShift, 0);
      ShlWordFits(original[i - wordShift], bitShift, CarryUp(original[i - 1 - wordShift], bitShift));
      ret[i] := ret[i] + CarryUp(original[i - 1 - wordShift], bitShift);
    }
  }

  lemma ShrWordsAre(words: seq<u64>, ret: seq<u64>, down: nat, r: nat)
    requires |words| == |ret| == WORDS && down <= WORDS && 0 < r < 64
    requires forall i :: WORDS - down <= i < WORDS ==> ret[i] == 0
    requires forall i :: 0 <= i < WORDS - down ==>
               ret[i] == Shr(words[i + down], r)
                   + if i + down == WORDS - 1 then 0 else CarryDown(words[i + down + 1], r)
    ensures ret == ShrWords(words[down..], r) + Zeros(down)
  {
    hide Pow2, Shr, CarryDown, ShrWords;
    forall i | 0 <= i < WORDS - down
      ensures ret[i] == ShrWords(words[down..], r)[i]
    {
      ShrWordsAt(words[down..], r, i);
      if i + down == WORDS - 1 { NothingDown(r); }
    }
  }

  lemma NothingDown(r: nat)
    requires r < 64
    ensures CarryDown(0, r) == 0
  {}

  method ShiftRight(original: array<u64>, shift: nat) returns (ret: array<u64>)
    requires original.Length == WORDS
    ensures fresh(ret) && ret.Length == WORDS
    ensures Val(ret[..]) == Shr(Val(original[..]), shift)
  {
    hide Pow2, Val, Shr, ShlWord, CarryDown, ShrWords;
    ret := new u64[WORDS](_ => 0);
    var wordShift, bitShift := shift / 64, shift % 64;
    for i := Min(wordShift, WORDS) to WORDS
      invariant forall k :: 0 <= k < WORDS && i <= k + wordShift ==> ret[k] == 0
      invariant forall k :: 0 <= k && k + wordShift < i ==> ret[k] == Shr(original[k + wordShift], bitShift)
    {
      ShrWordIsWord(original[i], bitShift);
      ret[i - wordShift] := Shr(original[i], bitShift);
    }
    if bitShift > 0 {
      AddCarriesDown(original, ret, wordShift, bitShift);
      if shift <= 1024 {
        ShrWordsAre(original[..], ret[..], wordShift, bitShift);
        ShrValue(original[..], wordShift, bitShift);
      }
    } else if shift <= 1024 {
      forall k | 0 <= k < WORDS
        ensures Shr(original[k], 0) == original[k]
      {
        NoShift(original[k]);
      }
      assert ret[..] == original[..][wordShift..] + Zeros(wordShift);
      ShrWholeWords(original[..], wordShift);
    }
    if shift > 1024 {
      AllZeros(ret[..]);
      ValBound(original[..]);
      ShiftedOut(Val(original[..]), shift);
    }
  }

  method AddCarriesDown(original: array<u64>, ret: array<u64>, wordShift: nat, bitShift: nat)
    requires original.Length == ret.Length == WORDS && original != ret && 0 < bitShift < 64
    requires forall k :: 0 <= k && k + wordShift < WORDS ==> ret[k] == Shr(original[k + wordShift], bitShift)
    modifies ret
    ensures forall k :: 0 <= k < WORDS && WORDS <= k + wordShift ==> ret[k] == old(ret[k])
    ensures forall k :: 0 <= k && k + wordShift < WORDS ==>
              ret[k] == Shr(original[k + wordShift], bitShift)
                  + if k + wordShift == WORDS - 1 then 0 else CarryDown(original[k + wordShift + 1], bitShift)
  {
    hide Pow2, Shr, CarryDown;
    for i := Min(wordShift + 1, WORDS) to WORDS
      invariant forall k :: 0 <= k < WORDS && WORDS <= k + wordShift ==> ret[k] == old(ret[k])
      invariant forall k :: 0 <= k && k + wordShift + 1 < i ==>
                  ret[k] == Shr(original[k + wordShift], bitShift) + CarryDown(original[k + wordShift + 1], bitShift)
      invariant forall k :: 0 <= k && i <= k + wordShift + 1 && k + wordShift < WORDS ==>
                  ret[k] == Shr(original[k + wordShift], bitShift)
    {
      ShrWordFits(original[i - 1], original[i], bitShift);
      ret[i - wordShift - 1] := ret[i - wordShift - 1] + CarryDown(original[i], bitShift);
    }
  }

  lemma ShrWordIsWord(w: u64, r: nat)
    ensures Shr(w, r) <= U64_MAX
  {
    hide Pow2;
    DivBounds(w, Pow2(r));
    MulLe(1, Pow2(r), w / Pow2(r));
  }

  // ---- Zero counts ----

  lemma HighestIsMsb(v: nat, k: nat)
    requires Bit(v, k) && forall i :: i > k ==> !Bit(v, i)
    ensures v > 0 && Msb(v) == k
  {
    hide Bit;
    if v == 0 { NoBits(k); }
    MsbIsHighest(v, Msb(v));
    if k > Msb(v) { MsbIsHighest(v, k); }
  }

  lemma LowestIsLsb(v: nat, k: nat)
    requires Bit(v, k) && forall i: nat :: i < k ==> !Bit(v, i)
    ensures v > 0 && Lsb(v) == k
  {
    hide Bit;
    if v == 0 { NoBits(k); }
    LsbIsLowest(v, Lsb(v));
    if k < Lsb(v) { LsbIsLowest(v, k); }
  }

  lemma MsbOfWord(w: u64)
    requires w > 0
    ensures Msb(w) < 64 && Lsb(w) < 64
  {
    hide Bit, Msb, Lsb;
    Pow2At64();
    MsbBounds(w);
    if Msb(w) >= 64 { Pow2Mono(64, Msb(w)); }
    LsbIsLowest(w, Lsb(w));
    if Lsb(w) > Msb(w) { MsbIsHighest(w, Lsb(w)); }
  }

  /** The highest set digit is that of the highest non-zero word. */
  lemma MsbOfWords(words: seq<u64>, j: nat)
    requires j < |words| && words[j] > 0 && forall i :: j < i < |words| ==> words[i] == 0
    ensures Val(words) > 0 && Msb(Val(words)) == 64 * j + Msb(words[j])
  {
    hide Bit, Val, Msb;
    var top := 64 * j + Msb(words[j]);
    MsbOfWord(words[j]);
    MsbIsHighest(words[j], Msb(words[j]));
    ValBit(words, top);
    forall i | i > top
      ensures !Bit(Val(words), i)
    {
      if i >= 64 * |words| {
        ValNoBit(words, i);
      } else {
        ValBit(words, i);
        if i / 64 == j { MsbIsHighest(words[j], i % 64); } else { NoBits(i % 64); }
      }
    }
    HighestIsMsb(Val(words), top);
  }

  lemma LsbOfWords(words: seq<u64>, j: nat)
    requires j < |words| && words[j] > 0 && forall i :: 0 <= i < j ==> words[i] == 0
    ensures Val(words) > 0 && Lsb(Val(words)) == 64 * j + Lsb(words[j])
  {
    hide Bit, Val, Lsb;
    var bottom := 64 * j + Lsb(words[j]);
    MsbOfWord(words[j]);
    LsbIsLowest(words[j], Lsb(words[j]));
    ValBit(words, bottom);
    forall i: nat | i < bottom
      ensures !Bit(Val(words), i)
    {
      ValBit(words, i);
      if i / 64 == j { LsbIsLowest(words[j], i % 64); } else { NoBits(i % 64); }
    }
    LowestIsLsb(Val(words), bottom);
  }

  lemma {:induction false} ZeroWords(words: seq<u64>)
    requires forall i :: 0 <= i < |words| ==> words[i] == 0
    ensures Val(words) == 0
  {
    if words != [] { ZeroWords(words[1..]); }
  }

  /** The number of zero digits above the highest set one. */
  method LeadingZeros(words: array<u64>) returns (r: nat)
    requires words.Length == WORDS
    ensures Val(words[..]) == 0 ==> r == 1024
    ensures Val(words[..]) > 0 ==> r + Msb(Val(words[..])) == 1023
  {
    hide Val, Msb;
    r := 0;
    var i := 0;
    while i < WORDS
      invariant 0 <= i <= WORDS && r == 64 * i
      invariant forall k :: WORDS - i <= k < WORDS ==> words[k] == 0
    {
      var w := words[WORDS - i - 1];
      if w == 0 {
        r := r + 64;
      } else {
        MsbOfWord(w);
        MsbOfWords(words[..], WORDS - i - 1);
        r := r + (63 - Msb(w));
        return;
      }
      i := i + 1;
    }
    ZeroWords(words[..]);
  }

  /** The number of zero digits below the lowest set one. */
  method TrailingZeros(words: array<u64>) returns (r: nat)
    requires words.Length == WORDS
    ensures Val(words[..]) == 0 ==> r == 1024
    ensures Val(words[..]) > 0 ==> r == Lsb(Val(words[..]))
  {
    hide Val, Lsb;
    r := 0;
    var i := 0;
    while i < WORDS
      invariant 0 <= i <= WORDS && r == 64 * i
      invariant forall k :: 0 <= k < i ==> words[k] == 0
    {
      var w := words[i];
      if w == 0 {
        r := r + 64;
      } else {
        LsbOfWords(words[..], i);
        r := r + Lsb(w);
        return;
      }
      i := i + 1;
    }
    ZeroWords(words[..]);
  }

  method IsZero(words: array<u64>) returns (zero: bool)
    requires words.Length == WORDS
    ensures zero <==> Val(words[..]) == 0
  {
    hide Val, Lsb;
    var i := 0;
    while i < WORDS
      invariant 0 <= i <= WORDS
      invariant forall k :: 0 <= k < i ==> words[k] == 0
    {
      if words[i] != 0 {
        LsbOfWords(words[..], i);
        return false;
      }
      i := i + 1;
    }
    ZeroWords(words[..]);
    return true;
  }

  // ---- Digit-wise loops ----

  lemma {:induction false} AndBelow(v: nat, w: nat)
    ensures And(v, w) <= v
  {
    if v > 0 && w > 0 { AndBelow(v / 2, w / 2); }
  }

  lemma {:induction false} XorBelow(v: nat, w: nat, n: nat)
    requires v < Pow2(n) && w < Pow2(n)
    ensures Xor(v, w) < Pow2(n)
  {
    if n > 0 && v + w > 0 { XorBelow(v / 2, w / 2, n - 1); }
  }

  method BitAnd(a: array<u64>, b: array<u64>) returns (ret: array<u64>)
    requires a.Length == b.Length == WORDS
    ensures fresh(ret) && ret.Length == WORDS
    ensures forall k: nat :: Bit(Val(ret[..]), k) <==> Bit(Val(a[..]), k) && Bit(Val(b[..]), k)
  {
    hide Bit, Val, And;
    ret := new u64[WORDS](_ => 0);
    for i := 0 to WORDS
      invariant forall k :: 0 <= k < i ==> ret[k] == And(a[k], b[k])
    {
      AndBelow(a[i], b[i]);
      ret[i] := And(a[i], b[i]);
    }
    forall k: nat
      ensures Bit(Val(ret[..]), k) <==> Bit(Val(a[..]), k) && Bit(Val(b[..]), k)
    {
      if k < 1024 {
        ValBit(ret[..], k);
        ValBit(a[..], k);
        ValBit(b[..], k);
        AndBit(a[k / 64], b[k / 64], k % 64);
      } else {
        ValNoBit(ret[..], k);
        ValNoBit(a[..], k);
      }
    }
  }

  method BitXor(a: array<u64>, b: array<u64>) returns (ret: array<u64>)
    requires a.Length == b.Length == WORDS
    ensures fresh(ret) && ret.Length == WORDS
    ensures forall k: nat :: Bit(Val(ret[..]), k) <==> Bit(Val(a[..]), k) != Bit(Val(b[..]), k)
  {
    hide Bit, Val, Xor;
    ret := new u64[WORDS](_ => 0);
    for i := 0 to WORDS
      invariant forall k :: 0 <= k < i ==> ret[k] == Xor(a[k], b[k])
    {
      Pow2At64();
      XorBelow(a[i], b[i], 64);
      ret[i] := Xor(a[i], b[i]);
    }
    forall k: nat
      ensures Bit(Val(ret[..]), k) <==> Bit(Val(a[..]), k) != Bit(Val(b[..]), k)
    {
      if k < 1024 {
        ValBit(ret[..], k);
        ValBit(a[..], k);
        ValBit(b[..], k);
        XorBit(a[k / 64], b[k / 64], k % 64);
      } else {
        ValNoBit(ret[..], k);
        ValNoBit(a[..], k);
        ValNoBit(b[..], k);
      }
    }
  }
}
