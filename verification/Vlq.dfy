/** Base64 VLQ numbers: the encoder, and the decoder of ECMA-426, section "Base64 VLQ". */
module Vlq {
  import opened Collections

  const UPPER: string := "ABCDEFGHIJKLMNOPQRSTUVWXYZ"
  const LOWER: string := "abcdefghijklmnopqrstuvwxyz"
  const OTHER: string := "0123456789+/"

  /** The encoder's table. */
  const VLQ_CHARS: string := UPPER + LOWER + OTHER

  /** The decoder's table: the value of a Base64 character. */
  function CharValue(c: char): Option<nat> {
    if 'A' <= c <= 'Z' then Some((c - 'A') as nat)
    else if 'a' <= c <= 'z' then Some((c - 'a') as nat + 26)
    else if '0' <= c <= '9' then Some((c - '0') as nat + 52)
    else if c == '+' then Some(62)
    else if c == '/' then Some(63)
    else None
  }

  lemma {:induction false} UpperChar(d: nat)
    requires d < 26
    ensures |UPPER| == 26 && UPPER[d] as nat == 'A' as nat + d
  {
  }

  lemma {:induction false} LowerChar(d: nat)
    requires d < 26
    ensures |LOWER| == 26 && LOWER[d] as nat == 'a' as nat + d
  {
  }

  lemma {:induction false} OtherChar(d: nat)
    requires d < 12
    ensures |OTHER| == 12
    ensures d < 10 ==> OTHER[d] as nat == '0' as nat + d
    ensures OTHER[10] == '+' && OTHER[11] == '/'
  {
  }

  lemma {:induction false} CharRoundTrip(d: nat)
    requires d < 64
    ensures |VLQ_CHARS| == 64 && CharValue(VLQ_CHARS[d]) == Some(d) && VLQ_CHARS[d] != ','
  {
    UpperChar(if d < 26 then d else 0);
    LowerChar(if 26 <= d < 52 then d - 26 else 0);
    OtherChar(if 52 <= d then d - 52 else 0);
    assert VLQ_CHARS[d] == if d < 26 then UPPER[d] else if d < 52 then LOWER[d - 26] else OTHER[d - 52];
  }

  /** A table of 64 characters that the decoder inverts. */
  ghost predicate Decodable(table: string) {
    |table| == 64 && forall d: nat :: d < 64 ==> CharValue(table[d]) == Some(d) && table[d] != ','
  }

  lemma {:induction false} TableDecodable()
    ensures Decodable(VLQ_CHARS)
  {
    CharRoundTrip(0);
    forall d: nat | d < 64
      ensures CharValue(VLQ_CHARS[d]) == Some(d) && VLQ_CHARS[d] != ','
    {
      CharRoundTrip(d);
    }
  }

  /** The sign goes to the lowest bit. */
  function ToUnsigned(n: int): nat {
    if n >= 0 then n * 2 else -n * 2 + 1
  }

  function ToSigned(x: nat): int {
    if x % 2 == 0 then x / 2 else -(x / 2)
  }

  /** Groups of five bits, lowest first; all but the last carry the continuation bit. */
  function Digits(x: nat): (r: seq<nat>)
    ensures |r| > 0 && forall k :: 0 <= k < |r| ==> r[k] < 64
  {
    if x > 31 then [32 + x % 32] + Digits(x / 32) else [x]
  }

  function Characters(table: string, digits: seq<nat>): (r: string)
    requires forall k :: 0 <= k < |digits| ==> digits[k] < |table|
    ensures |r| == |digits| && forall k :: 0 <= k < |r| ==> r[k] == table[digits[k]]
  {
    seq(|digits|, k requires 0 <= k < |digits| => table[digits[k]])
  }

  function Encoded(n: int): string {
    EncodedBy(VLQ_CHARS, n)
  }

  function EncodedBy(table: string, n: int): string
    requires |table| == 64
  {
    Characters(table, Digits(ToUnsigned(n)))
  }

  method EncodeVlq(n: int) returns (result: string)
    ensures result == Encoded(n)
  {
    result := EncodeWith(VLQ_CHARS, n);
  }

  method EncodeWith(table: string, n: int) returns (result: string)
    requires |table| == 64
    ensures result == EncodedBy(table, n)
  {
    var x: nat := if n >= 0 then n * 2 else -n * 2 + 1;
    result := "";
    ghost var done: seq<nat> := [];
    while x > 31
      invariant forall k :: 0 <= k < |done| ==> done[k] < 64
      invariant result == Characters(table, done)
      invariant done + Digits(x) == Digits(ToUnsigned(n))
    {
      CharactersAppend(table, done, 32 + x % 32);
      Associative(done, [32 + x % 32], Digits(x / 32));
      done := done + [32 + x % 32];
      result := result + [table[32 + x % 32]];
      x := x / 32;
    }
    CharactersAppend(table, done, x);
    result := result + [table[x]];
  }

  lemma {:induction false} CharactersAppend(table: string, digits: seq<nat>, d: nat)
    requires d < |table| && forall k :: 0 <= k < |digits| ==> digits[k] < |table|
    ensures Characters(table, digits + [d]) == Characters(table, digits) + [table[d]]
  {
  }

  // ---------------------------------------------------------------- decoding

  datatype Read = Read(value: int, rest: string)

  /** Read groups of five bits up to the first one without continuation bit. */
  function ReadUnsigned(text: string): (r: Option<Read>)
    ensures r.Some? ==> r.value.value >= 0 && |r.value.rest| < |text|
  {
    if text == "" then None
    else
      match CharValue(text[0])
      case None => None
      case Some(d) =>
        if d < 32 then Some(Read(d, text[1..]))
        else
          match ReadUnsigned(text[1..])
          case None => None
          case Some(read) => Some(Read(d - 32 + 32 * read.value, read.rest))
  }

  function ReadVlq(text: string): (r: Option<Read>)
    ensures r.Some? ==> |r.value.rest| < |text|
  {
    match ReadUnsigned(text)
    case None => None
    case Some(read) => Some(Read(ToSigned(read.value), read.rest))
  }

  lemma {:induction false} SignRoundTrip(n: int)
    ensures ToSigned(ToUnsigned(n)) == n
  {
  }

  lemma {:induction false} ReadLast(text: string, d: nat, rest: string)
    requires text != "" && text[1..] == rest && CharValue(text[0]) == Some(d) && d < 32
    ensures ReadUnsigned(text) == Some(Read(d, rest))
  {
  }

  lemma {:induction false} ReadContinued(text: string, x: nat, rest: string)
    requires text != "" && CharValue(text[0]) == Some(32 + x % 32)
    requires ReadUnsigned(text[1..]) == Some(Read(x / 32, rest))
    ensures ReadUnsigned(text) == Some(Read(x, rest))
  {
    assert x % 32 + 32 * (x / 32) == x;
  }

  lemma {:induction false} FrontCharacter(table: string, d: nat, digits: seq<nat>, rest: string)
    requires d < |table| && forall k :: 0 <= k < |digits| ==> digits[k] < |table|
    ensures
      var text := Characters(table, [d] + digits) + rest;
      text[0] == table[d] && text[1..] == Characters(table, digits) + rest
  {
    assert Characters(table, [d] + digits) == [table[d]] + Characters(table, digits);
  }

  lemma {:induction false} ReadDigits(table: string, x: nat, rest: string)
    requires Decodable(table)
    ensures ReadUnsigned(Characters(table, Digits(x)) + rest) == Some(Read(x, rest))
  {
    if x <= 31 {
      FrontCharacter(table, x, [], rest);
      assert [x] + [] == Digits(x);
      assert Characters(table, []) + rest == rest;
      ReadLast(Characters(table, [x] + []) + rest, x, rest);
    } else {
      ReadDigits(table, x / 32, rest);
      FrontCharacter(table, 32 + x % 32, Digits(x / 32), rest);
      ReadContinued(Characters(table, [32 + x % 32] + Digits(x / 32)) + rest, x, rest);
    }
  }

  lemma {:induction false} ReadSigned(text: string, x: nat, rest: string)
    requires ReadUnsigned(text) == Some(Read(x, rest))
    ensures ReadVlq(text) == Some(Read(ToSigned(x), rest))
  {
  }

  lemma {:induction false} RoundTripBy(table: string, n: int, rest: string)
    requires Decodable(table)
    ensures ReadVlq(EncodedBy(table, n) + rest) == Some(Read(n, rest))
  {
    ReadDigits(table, ToUnsigned(n), rest);
    ReadSigned(EncodedBy(table, n) + rest, ToUnsigned(n), rest);
    SignRoundTrip(n);
  }

  /** Decoding gives back the number and what follows it, for every integer. */
  lemma {:induction false} VlqRoundTrip(n: int, rest: string)
    ensures ReadVlq(Encoded(n) + rest) == Some(Read(n, rest))
  {
    TableDecodable();
    RoundTripBy(VLQ_CHARS, n, rest);
  }

  /** No encoding is a prefix of another one, and no two numbers share an encoding. */
  lemma {:induction false} PrefixFree(m: int, n: int, a: string, b: string)
    requires Encoded(m) + a == Encoded(n) + b
    ensures m == n && a == b
  {
    VlqRoundTrip(m, a);
    VlqRoundTrip(n, b);
  }

  lemma {:induction false} NoCommaBy(table: string, n: int)
    requires Decodable(table)
    ensures EncodedBy(table, n) != "" && ',' !in EncodedBy(table, n)
  {
    assert |Digits(ToUnsigned(n))| > 0;
  }

  lemma {:induction false} EncodedHasNoComma(n: int)
    ensures Encoded(n) != "" && ',' !in Encoded(n)
  {
    TableDecodable();
    NoCommaBy(VLQ_CHARS, n);
  }
}
