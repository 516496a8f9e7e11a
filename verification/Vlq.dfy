/** Base64 VLQ (`decode_vlq` in `scripts/check_bundle_share.py`; section 6 of ECMA-426).

    A number is written in base 32, least significant digit first, its sign in the lowest bit;
    a digit of 32 or more says that another follows. */
module Vlq {

  datatype Option<+T> = None | Some(value: T)

  /** `BASE64[char]`, the place in "A" to "Z", "a" to "z", "0" to "9", "+", "/"; a character
      outside the alphabet is a `KeyError`. */
  function Digit(c: char): (d: Option<nat>)
    ensures d.Some? ==> d.value < 64
  {
    if 'A' <= c <= 'Z' then Some(c as int - 'A' as int)
    else if 'a' <= c <= 'z' then Some(26 + (c as int - 'a' as int))
    else if '0' <= c <= '9' then Some(52 + (c as int - '0' as int))
    else if c == '+' then Some(62)
    else if c == '/' then Some(63)
    else None
  }

  function Letter(d: nat): char
    requires d < 64
  {
    if d < 26 then ('A' as int + d) as char
    else if d < 52 then ('a' as int + (d - 26)) as char
    else if d < 62 then ('0' as int + (d - 52)) as char
    else if d == 62 then '+' else '/'
  }

  lemma DigitOfLetter(d: nat)
    requires d < 64
    ensures Digit(Letter(d)) == Some(d)
  {
  }

  // ----- decoding -----

  /** The sign is the lowest bit. */
  function Signed(value: nat): int {
    if value % 2 == 1 then -(value / 2) else value / 2
  }

  /** Decoding when `value` has been read of a number and the next digit counts `weight`,
      which is two to the power of the source's `shift`. */
  function DecodeFrom(segment: string, value: nat, weight: nat): Option<seq<int>> {
    if segment == "" then Some([])
    else
      match Digit(segment[0])
      case None => None
      case Some(digit) =>
        var longer := value + digit % 32 * weight;
        if digit >= 32 then DecodeFrom(segment[1..], longer, weight * 32)
        else
          match DecodeFrom(segment[1..], 0, 1)
          case None => None
          case Some(rest) => Some([Signed(longer)] + rest)
  }

  function Decode(segment: string): Option<seq<int>> {
    DecodeFrom(segment, 0, 1)
  }

  function Power2(shift: nat): nat {
    if shift == 0 then 1 else 2 * Power2(shift - 1)
  }

  lemma FiveMore(shift: nat)
    ensures Power2(shift + 5) == 32 * Power2(shift)
  {
    assert Power2(shift + 1) == 2 * Power2(shift);
    assert Power2(shift + 2) == 2 * Power2(shift + 1);
    assert Power2(shift + 3) == 2 * Power2(shift + 2);
    assert Power2(shift + 4) == 2 * Power2(shift + 3);
    assert Power2(shift + 5) == 2 * Power2(shift + 4);
  }

  function Prepend(out: seq<int>, rest: Option<seq<int>>): Option<seq<int>> {
    if rest.None? then None else Some(out + rest.value)
  }

  /** `decode_vlq`; `None` is the `KeyError`. */
  method DecodeVlq(segment: string) returns (fields: Option<seq<int>>)
    ensures fields == Decode(segment)
  {
    var out: seq<int> := [];
    var value: nat, shift: nat := 0, 0;
    assert segment[0..] == segment && Power2(0) == 1;
    assert Decode(segment).Some? ==> [] + Decode(segment).value == Decode(segment).value;
    for k := 0 to |segment|
      invariant Decode(segment) == Prepend(out, DecodeFrom(segment[k..], value, Power2(shift)))
    {
      var d := Digit(segment[k]);
      if d.None? {
        return None;
      }
      assert segment[k..][1..] == segment[k + 1..];
      FiveMore(shift);
      ghost var rest := DecodeFrom(segment[k + 1..], 0, 1);
      value := value + d.value % 32 * Power2(shift);
      shift := shift + 5;
      if d.value < 32 {
        if rest.Some? { assert out + ([Signed(value)] + rest.value) == out + [Signed(value)] + rest.value; }
        out := out + [Signed(value)];
        value, shift := 0, 0;
      }
    }
    assert out + [] == out;
    fields := Some(out);
  }

  // ----- encoding -----

  function Digits(value: nat): string {
    if value < 32 then [Letter(value)] else [Letter(32 + value % 32)] + Digits(value / 32)
  }

  function Encode(n: int): string {
    Digits(Unsigned(n))
  }

  function EncodeAll(fields: seq<int>): string {
    if fields == [] then "" else Encode(fields[0]) + EncodeAll(fields[1..])
  }

  lemma Place(value: nat, before: nat, weight: nat)
    ensures before + value % 32 * weight + value / 32 * (weight * 32) == before + value * weight
  {
    assert value == value % 32 + value / 32 * 32;
    assert value / 32 * (weight * 32) == value / 32 * 32 * weight;
    assert (value % 32 + value / 32 * 32) * weight == value % 32 * weight + value / 32 * 32 * weight;
  }

  lemma LastDigit(value: nat, rest: string, before: nat, weight: nat)
    requires value < 32
    ensures DecodeFrom([Letter(value)] + rest, before, weight)
         == Prepend([Signed(before + value * weight)], DecodeFrom(rest, 0, 1))
  {
    DigitOfLetter(value);
    assert ([Letter(value)] + rest)[1..] == rest;
  }

  lemma MoreDigits(digit: nat, rest: string, before: nat, weight: nat)
    requires digit < 32
    ensures DecodeFrom([Letter(32 + digit)] + rest, before, weight)
         == DecodeFrom(rest, before + digit * weight, weight * 32)
  {
    DigitOfLetter(32 + digit);
    assert ([Letter(32 + digit)] + rest)[1..] == rest;
  }

  /** One number is read to its end, whatever follows it. */
  lemma {:induction false} DecodeDigits(value: nat, rest: string, before: nat, weight: nat)
    ensures DecodeFrom(Digits(value) + rest, before, weight)
         == Prepend([Signed(before + value * weight)], DecodeFrom(rest, 0, 1))
    decreases value
  {
    hide DecodeFrom, Signed, Letter;
    if value < 32 {
      LastDigit(value, rest, before, weight);
    } else {
      var more := Digits(value / 32);
      assert Digits(value) + rest == [Letter(32 + value % 32)] + (more + rest);
      MoreDigits(value % 32, more + rest, before, weight);
      DecodeDigits(value / 32, rest, before + value % 32 * weight, weight * 32);
      Place(value, before, weight);
    }
  }

  function Unsigned(n: int): nat {
    if n < 0 then 2 * -n + 1 else 2 * n
  }

  lemma SignedOfUnsigned(n: int)
    ensures Signed(Unsigned(n)) == n
  {
  }

  lemma DecodeOne(n: int, rest: string)
    ensures Decode(Encode(n) + rest) == Prepend([n], Decode(rest))
  {
    hide DecodeFrom, Signed, Digits;
    DecodeDigits(Unsigned(n), rest, 0, 1);
    SignedOfUnsigned(n);
    assert 0 + Unsigned(n) * 1 == Unsigned(n);
  }

  lemma PrependTwice(a: seq<int>, b: seq<int>, rest: Option<seq<int>>)
    ensures Prepend(a, Prepend(b, rest)) == Prepend(a + b, rest)
  {
    if rest.Some? { assert a + (b + rest.value) == a + b + rest.value; }
  }

  lemma PrependNothing(rest: Option<seq<int>>)
    ensures Prepend([], rest) == rest
  {
    if rest.Some? { assert [] + rest.value == rest.value; }
  }

  /** Decoding numbers and what follows is the numbers and what follows, decoded. */
  lemma {:induction false} DecodeAppend(fields: seq<int>, rest: string)
    ensures Decode(EncodeAll(fields) + rest) == Prepend(fields, Decode(rest))
  {
    hide Decode, Encode, Prepend;
    if fields == [] {
      assert EncodeAll(fields) + rest == rest;
      PrependNothing(Decode(rest));
    } else {
      var n, more := fields[0], fields[1..];
      assert EncodeAll(fields) + rest == Encode(n) + (EncodeAll(more) + rest);
      DecodeOne(n, EncodeAll(more) + rest);
      DecodeAppend(more, rest);
      PrependTwice([n], more, Decode(rest));
      assert fields == [n] + more;
    }
  }

  /** Every list of numbers comes back, of any size and sign. */
  lemma DecodeUndoesEncode(fields: seq<int>)
    ensures Decode(EncodeAll(fields)) == Some(fields)
  {
    DecodeAppend(fields, "");
    assert EncodeAll(fields) + "" == EncodeAll(fields) && fields + [] == fields;
  }

  /** Encodings can be joined. */
  lemma DecodeConcatenation(a: seq<int>, b: seq<int>)
    ensures Decode(EncodeAll(a) + EncodeAll(b)) == Some(a + b)
  {
    DecodeAppend(a, EncodeAll(b));
    DecodeUndoesEncode(b);
  }

  /** The only failure is a character that is no digit. */
  lemma {:induction false} DecodeFailsExactlyWhen(segment: string, value: nat, weight: nat)
    ensures DecodeFrom(segment, value, weight).None? <==> exists k :: 0 <= k < |segment| && Digit(segment[k]).None?
  {
    if segment != "" && Digit(segment[0]).Some? {
      var digit := Digit(segment[0]).value;
      if digit >= 32 {
        DecodeFailsExactlyWhen(segment[1..], value + digit % 32 * weight, weight * 32);
      } else {
        DecodeFailsExactlyWhen(segment[1..], 0, 1);
      }
      assert forall k | 0 < k < |segment| :: segment[k] == segment[1..][k - 1];
    }
  }

  /** A number that is cut off in the middle is dropped without a word. */
  lemma {:induction false} CutNumberIsDropped(fields: seq<int>, cut: string)
    requires forall k | 0 <= k < |cut| :: Digit(cut[k]).Some? && Digit(cut[k]).value >= 32
    ensures Decode(EncodeAll(fields) + cut) == Some(fields)
  {
    DecodeAppend(fields, cut);
    NothingDecoded(cut, 0, 1);
    assert fields + [] == fields;
  }

  lemma NothingDecoded(cut: string, value: nat, weight: nat)
    requires forall k | 0 <= k < |cut| :: Digit(cut[k]).Some? && Digit(cut[k]).value >= 32
    ensures DecodeFrom(cut, value, weight) == Some([])
  {
    if cut != "" {
      NothingDecoded(cut[1..], value + Digit(cut[0]).value % 32 * weight, weight * 32);
    }
  }
}
