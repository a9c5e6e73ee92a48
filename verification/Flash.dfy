/**
 * RamFlash: erasing sets bytes to 0xFF, writing can only clear bits, both one byte at a time
 * in ascending order. The supply is part of the model: `power` is the number of byte steps it
 * will still feed, and an operation that outlasts it stops where it is.
 */
module Flash {
  import opened Bytes
  import opened Records
  import opened TornWrites

  datatype FlashError = OutOfBounds | OutOfPower

  /** Bitwise and of the low `n` bits. */
  function And(x: nat, y: nat, n: nat): nat {
    if n == 0 then 0 else 2 * And(x / 2, y / 2, n - 1) + (if x % 2 == 1 && y % 2 == 1 then 1 else 0)
  }

  lemma {:induction false} AndOnes(x: nat, n: nat)
    requires x < Pow2(n)
    ensures And(Pow2(n) - 1, x, n) == x
  {
    if n > 0 {
      AndOnes(x / 2, n - 1);
      assert (Pow2(n) - 1) / 2 == Pow2(n - 1) - 1 && (Pow2(n) - 1) % 2 == 1;
    }
  }

  lemma {:induction false} AndBound(x: nat, y: nat, n: nat)
    ensures And(x, y, n) < Pow2(n)
  {
    if n > 0 {
      AndBound(x / 2, y / 2, n - 1);
    }
  }

  /** `slot &= new`. */
  function ClearBits(slot: byte, new_: byte): byte {
    AndBound(slot, new_, 8);
    assert Pow2(8) == 256;
    And(slot, new_, 8)
  }

  lemma ClearErased(new_: byte)
    ensures ClearBits(ERASED, new_) == new_
  {
    assert Pow2(8) == 256;
    AndOnes(new_, 8);
  }

  /** The first `n` byte steps of an erase at `from`. */
  function EraseSteps(img: seq<byte>, from: nat, n: nat): (r: seq<byte>)
    requires from + n <= |img|
    ensures |r| == |img|
  {
    img[..from] + Repeat(ERASED, n) + img[from + n..]
  }

  /** The first `n` byte steps of a write of `data` at `at`. */
  function WriteSteps(img: seq<byte>, at: nat, data: seq<byte>, n: nat): (r: seq<byte>)
    requires n <= |data| && at + n <= |img|
    ensures |r| == |img|
  {
    img[..at] + seq(n, i requires 0 <= i < n => ClearBits(img[at + i], data[i])) + img[at + n..]
  }

  lemma WriteStepsSnoc(img: seq<byte>, at: nat, data: seq<byte>, n: nat)
    requires n < |data| && at + n < |img|
    ensures WriteSteps(img, at, data, n)[at + n] == img[at + n]
    ensures WriteSteps(img, at, data, n + 1) == WriteSteps(img, at, data, n)[at + n := ClearBits(img[at + n], data[n])]
  {
  }

  predicate InRange(img: seq<byte>, at: nat) {
    at + SLOT_SIZE <= |img|
  }

  function SlotAt(img: seq<byte>, at: nat): (slot: seq<byte>)
    requires InRange(img, at)
    ensures |slot| == SLOT_SIZE
  {
    img[at..at + SLOT_SIZE]
  }

  function Patch(img: seq<byte>, at: nat, slot: seq<byte>): (r: seq<byte>)
    requires InRange(img, at) && |slot| == SLOT_SIZE
    ensures |r| == |img|
  {
    img[..at] + slot + img[at + SLOT_SIZE..]
  }

  /** A slot after an erase and then a write, `n` byte steps of them in all. */
  function SaveSteps(img: seq<byte>, at: nat, image: seq<byte>, n: nat): (r: seq<byte>)
    requires InRange(img, at) && |image| == SLOT_SIZE
    ensures |r| == |img|
  {
    if n < SLOT_SIZE then EraseSteps(img, at, n)
    else WriteSteps(EraseSteps(img, at, SLOT_SIZE), at, image, Min(n - SLOT_SIZE, SLOT_SIZE))
  }

  lemma EraseIsPatch(img: seq<byte>, at: nat, was: seq<byte>, n: nat)
    requires InRange(img, at) && was == SlotAt(img, at) && n <= SLOT_SIZE
    ensures EraseSteps(img, at, n) == Patch(img, at, Repeat(ERASED, n) + was[n..])
  {
    assert img[at + n..] == was[n..] + img[at + SLOT_SIZE..];
  }

  lemma WriteOverErased(erased: seq<byte>, at: nat, image: seq<byte>, k: nat)
    requires InRange(erased, at) && |image| == SLOT_SIZE && k <= SLOT_SIZE
    requires SlotAt(erased, at) == Repeat(ERASED, SLOT_SIZE)
    ensures WriteSteps(erased, at, image, k) == Patch(erased, at, Torn(image, k))
  {
    var written := seq(k, i requires 0 <= i < k => ClearBits(erased[at + i], image[i]));
    forall i | 0 <= i < k ensures written[i] == image[i] {
      assert erased[at + i] == SlotAt(erased, at)[i];
      ClearErased(image[i]);
    }
    assert written == image[..k];
    assert erased[at + k..] == SlotAt(erased, at)[k..] + erased[at + SLOT_SIZE..];
  }

  lemma PatchTwice(img: seq<byte>, at: nat, first: seq<byte>, second: seq<byte>)
    requires InRange(img, at) && |first| == |second| == SLOT_SIZE
    ensures Patch(Patch(img, at, first), at, second) == Patch(img, at, second)
    ensures SlotAt(Patch(img, at, first), at) == first
  {
  }

  /** Erase-then-write is confined to its slot, and there it is the cut save of TornWrites. */
  lemma SaveStepsIsCutSlot(img: seq<byte>, at: nat, image: seq<byte>, n: nat)
    requires InRange(img, at) && |image| == SLOT_SIZE
    ensures SaveSteps(img, at, image, n) == Patch(img, at, CutSlot(SlotAt(img, at), image, n))
  {
    var was := SlotAt(img, at);
    if n < SLOT_SIZE {
      EraseIsPatch(img, at, was, n);
    } else {
      var k, blank := Min(n - SLOT_SIZE, SLOT_SIZE), Repeat(ERASED, SLOT_SIZE);
      EraseIsPatch(img, at, was, SLOT_SIZE);
      assert Repeat(ERASED, SLOT_SIZE) + was[SLOT_SIZE..] == blank;
      PatchTwice(img, at, blank, Torn(image, k));
      WriteOverErased(Patch(img, at, blank), at, image, k);
      assert CutSlot(was, image, n) == Torn(image, k);
    }
  }

  lemma SlotOfPatch(img: seq<byte>, at: nat, slot: seq<byte>, other: nat)
    requires InRange(img, at) && InRange(img, other) && |slot| == SLOT_SIZE
    ensures SlotAt(Patch(img, at, slot), at) == slot
    ensures other + SLOT_SIZE <= at || at + SLOT_SIZE <= other ==>
              SlotAt(Patch(img, at, slot), other) == SlotAt(img, other)
  {
  }

  class RamFlash {
    const bytes: array<byte>
    var power: nat

    constructor (size: nat, supply: nat)
      ensures fresh(bytes) && bytes.Length == size && power == supply
      ensures bytes[..] == Repeat(ERASED, size)
    {
      bytes := new byte[size](_ => ERASED);
      power := supply;
      new;
      assert bytes[..] == Repeat(ERASED, size);
    }

    method Read(offset: nat, len: nat) returns (r: Result<seq<byte>, FlashError>)
      ensures r == if offset + len <= bytes.Length then Ok(bytes[offset..offset + len]) else Err(OutOfBounds)
    {
      if offset + len > bytes.Length {
        return Err(OutOfBounds);
      }
      return Ok(bytes[offset..offset + len]);
    }

    method Erase(from: nat, to: nat) returns (r: Result<(), FlashError>)
      modifies bytes, this`power
      ensures to > bytes.Length || from > to ==>
                r == Err(OutOfBounds) && bytes[..] == old(bytes[..]) && power == old(power)
      ensures from <= to <= bytes.Length ==>
                var n := Min(old(power), to - from);
                && bytes[..] == EraseSteps(old(bytes[..]), from, n)
                && power == old(power) - n
                && r == if n == to - from then Ok(()) else Err(OutOfPower)
    {
      if to > bytes.Length || from > to {
        return Err(OutOfBounds);
      }
      var i := from;
      while i < to
        invariant from <= i <= to
        invariant i - from <= old(power) && power == old(power) - (i - from)
        invariant bytes[..] == EraseSteps(old(bytes[..]), from, i - from)
      {
        if power == 0 {
          return Err(OutOfPower);
        }
        bytes[i] := ERASED;
        i, power := i + 1, power - 1;
      }
      return Ok(());
    }

    method Write(offset: nat, data: seq<byte>) returns (r: Result<(), FlashError>)
      modifies bytes, this`power
      ensures offset + |data| > bytes.Length ==>
                r == Err(OutOfBounds) && bytes[..] == old(bytes[..]) && power == old(power)
      ensures offset + |data| <= bytes.Length ==>
                var n := Min(old(power), |data|);
                && bytes[..] == WriteSteps(old(bytes[..]), offset, data, n)
                && power == old(power) - n
                && r == if n == |data| then Ok(()) else Err(OutOfPower)
    {
      if offset + |data| > bytes.Length {
        return Err(OutOfBounds);
      }
      var i := 0;
      while i < |data|
        invariant 0 <= i <= |data|
        invariant i <= old(power) && power == old(power) - i
        invariant bytes[..] == WriteSteps(old(bytes[..]), offset, data, i)
      {
        if power == 0 {
          return Err(OutOfPower);
        }
        WriteStepsSnoc(old(bytes[..]), offset, data, i);
        bytes[offset + i] := ClearBits(bytes[offset + i], data[i]);
        i, power := i + 1, power - 1;
      }
      return Ok(());
    }
  }
}
