/** What a name may hold: the check of its bytes accepts exactly the UTF-8 forms of sequences of characters. */
module Utf8 {
  import opened Bytes
  import opened Payloads

  /** A Unicode scalar value: a code point that is not a surrogate. */
  predicate Scalar(c: nat) {
    c < 0xD800 || 0xE000 <= c < 0x11_0000
  }

  /** One to four bytes, six bits in each but the first. */
  function Character(c: nat): (b: seq<u8>)
    requires Scalar(c)
    ensures 1 <= |b| <= 4
  {
    if c < 0x80 then [c]
    else if c < 0x800 then [0xC0 + c / 0x40, 0x80 + c % 0x40]
    else if c < 0x1_0000 then [0xE0 + c / 0x1000, 0x80 + c / 0x40 % 0x40, 0x80 + c % 0x40]
    else [0xF0 + c / 0x4_0000, 0x80 + c / 0x1000 % 0x40, 0x80 + c / 0x40 % 0x40, 0x80 + c % 0x40]
  }

  ghost predicate Scalars(text: seq<nat>) {
    forall i :: 0 <= i < |text| ==> Scalar(text[i])
  }

  function Encoded(text: seq<nat>): seq<u8>
    requires Scalars(text)
  {
    if text == [] then [] else Character(text[0]) + Encoded(text[1..])
  }

  lemma CharacterPasses(c: nat, rest: seq<u8>)
    requires Scalar(c)
    ensures ValidUtf8(Character(c) + rest) <==> ValidUtf8(rest)
  {
    Leads(c);
    hide Character;
    var (e, b) := (Character(c), Character(c) + rest);
    assert b[|e|..] == rest && forall i :: 0 <= i < |e| ==> b[i] == e[i];
  }

  /** The first byte tells how many there are, and the others carry six bits each. */
  lemma Leads(c: nat)
    requires Scalar(c)
    ensures var b := Character(c);
            match |b|
            case 1 => b[0] < 0x80
            case 2 => 0xC2 <= b[0] <= 0xDF && 0x80 <= b[1] <= 0xBF
            case 3 =>
              && 0xE0 <= b[0] <= 0xEF && 0x80 <= b[1] <= 0xBF && 0x80 <= b[2] <= 0xBF
              && (b[0] == 0xE0 ==> 0xA0 <= b[1]) && (b[0] == 0xED ==> b[1] <= 0x9F)
            case _ =>
              && 0xF0 <= b[0] <= 0xF4 && 0x80 <= b[1] <= 0xBF && 0x80 <= b[2] <= 0xBF && 0x80 <= b[3] <= 0xBF
              && (b[0] == 0xF0 ==> 0x90 <= b[1]) && (b[0] == 0xF4 ==> b[1] <= 0x8F)
  {
    if 0x800 <= c < 0x1_0000 {
      ThreeLeads(c);
    } else if c >= 0x1_0000 {
      FourLeads(c);
    }
  }

  lemma ThreeLeads(c: nat)
    requires 0x800 <= c < 0x1_0000 && Scalar(c)
    ensures 0 <= c / 0x1000 <= 0xF && 0 <= c / 0x40 % 0x40 < 0x40
    ensures c / 0x1000 == 0 ==> c / 0x40 % 0x40 >= 0x20
    ensures c / 0x1000 == 0xD ==> c / 0x40 % 0x40 < 0x20
  {
    var d := c / 0x40;
    assert c / 0x1000 == d / 0x40 && d == 0x40 * (d / 0x40) + d % 0x40;
  }

  lemma FourLeads(c: nat)
    requires 0x1_0000 <= c < 0x11_0000
    ensures 0 <= c / 0x4_0000 <= 4 && 0 <= c / 0x1000 % 0x40 < 0x40
    ensures c / 0x4_0000 == 0 ==> c / 0x1000 % 0x40 >= 0x10
    ensures c / 0x4_0000 == 4 ==> c / 0x1000 % 0x40 < 0x10
  {
    var d := c / 0x1000;
    assert c / 0x4_0000 == d / 0x40 && d == 0x40 * (d / 0x40) + d % 0x40;
  }

  lemma FirstCharacter(b: seq<u8>) returns (c: nat)
    requires b != [] && ValidUtf8(b)
    ensures Scalar(c) && Character(c) <= b && ValidUtf8(b[|Character(c)|..])
  {
    if b[0] < 0x80 {
      c := b[0];
    } else if b[0] < 0xE0 {
      c := TwoBytes(b[0], b[1]);
    } else if b[0] < 0xF0 {
      c := ThreeBytes(b[0], b[1], b[2]);
    } else {
      c := FourBytesOf(b[0], b[1], b[2], b[3]);
    }
  }

  lemma TwoBytes(x: int, y: int) returns (c: nat)
    requires 0xC2 <= x <= 0xDF && 0x80 <= y <= 0xBF
    ensures Scalar(c) && Character(c) == [x, y]
  {
    c := (x - 0xC0) * 0x40 + (y - 0x80);
  }

  lemma ThreeBytes(x: int, y: int, z: int) returns (c: nat)
    requires 0xE0 <= x <= 0xEF && 0x80 <= z <= 0xBF
    requires (if x == 0xE0 then 0xA0 else 0x80) <= y <= (if x == 0xED then 0x9F else 0xBF)
    ensures Scalar(c) && Character(c) == [x, y, z]
  {
    var d := (x - 0xE0) * 0x40 + (y - 0x80);
    c := d * 0x40 + (z - 0x80);
    assert c / 0x40 == d && c % 0x40 == z - 0x80 && d / 0x40 == x - 0xE0 && d % 0x40 == y - 0x80;
    assert c / 0x1000 == d / 0x40;
  }

  lemma FourBytesOf(w: int, x: int, y: int, z: int) returns (c: nat)
    requires 0xF0 <= w <= 0xF4 && 0x80 <= y <= 0xBF && 0x80 <= z <= 0xBF
    requires (if w == 0xF0 then 0x90 else 0x80) <= x <= (if w == 0xF4 then 0x8F else 0xBF)
    ensures Scalar(c) && Character(c) == [w, x, y, z]
  {
    var e := (w - 0xF0) * 0x40 + (x - 0x80);
    var d := e * 0x40 + (y - 0x80);
    c := d * 0x40 + (z - 0x80);
    assert c / 0x40 == d && c % 0x40 == z - 0x80 && d / 0x40 == e && d % 0x40 == y - 0x80;
    assert e / 0x40 == w - 0xF0 && e % 0x40 == x - 0x80;
    assert c / 0x1000 == d / 0x40 && c / 0x4_0000 == e / 0x40;
  }

  lemma {:induction false} EncodedPasses(text: seq<nat>)
    requires Scalars(text)
    ensures ValidUtf8(Encoded(text))
  {
    hide Character;
    if text == [] {
    } else {
      CharacterPasses(text[0], Encoded(text[1..]));
      EncodedPasses(text[1..]);
    }
  }

  lemma {:induction false} PassedIsEncoded(b: seq<u8>) returns (text: seq<nat>)
    requires ValidUtf8(b)
    ensures Scalars(text) && Encoded(text) == b
    decreases |b|
  {
    hide Character, ValidUtf8;
    if b == [] {
      text := [];
    } else {
      var c := FirstCharacter(b);
      var n := |Character(c)|;
      var rest := PassedIsEncoded(b[n..]);
      text := [c] + rest;
      assert text[1..] == rest && b == b[..n] + b[n..];
    }
  }

  /** A byte string passes for a name if and only if it is the UTF-8 form of some text. */
  lemma ValidExactly(b: seq<u8>)
    ensures ValidUtf8(b) <==> exists text: seq<nat> :: Scalars(text) && Encoded(text) == b
  {
    if ValidUtf8(b) {
      var text := PassedIsEncoded(b);
      assert Scalars(text) && Encoded(text) == b;
    }
    forall text: seq<nat> | Scalars(text) && Encoded(text) == b
      ensures ValidUtf8(b)
    {
      EncodedPasses(text);
    }
  }
}
