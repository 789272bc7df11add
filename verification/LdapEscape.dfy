/** ldap_escape(): escaping of values for LDAP filters and DNs. */
module LdapEscape {
  import opened Options
  import opened Utf8

  const BACKSLASH: Byte := 0x5c
  const SPACE: Byte := 0x20
  const HASH: Byte := 0x23

  /** escape_chars: the control characters, and \ * ( ) , + < > ; " = */
  predicate Special(b: Byte) {
    || 1 <= b <= 0x1f
    || b in {0x5c, 0x2a, 0x28, 0x29, 0x2c, 0x2b, 0x3c, 0x3e, 0x3b, 0x22, 0x3d}
  }

  function HexDigit(n: int): Byte
    requires 0 <= n < 16
  {
    if n < 10 then 0x30 + n else 0x61 + n - 10
  }

  function Hex(b: Byte): seq<Byte> {
    [BACKSLASH, HexDigit(b / 16), HexDigit(b % 16)]
  }

  // ----- the reference: which positions are escaped

  /** Special characters, a leading '#' or space, and the last trailing space. */
  predicate MustEscape(s: seq<Byte>, i: nat)
    requires i < |s|
  {
    || Special(s[i])
    || (i == 0 && (s[0] == HASH || s[0] == SPACE))
    || (i == |s| - 1 && s[i] == SPACE)
  }

  ghost function EscapedTo(s: seq<Byte>, n: nat): seq<Byte>
    requires n <= |s|
  {
    if n == 0 then []
    else EscapedTo(s, n - 1) + if MustEscape(s, n - 1) then Hex(s[n - 1]) else [s[n - 1]]
  }

  ghost function Escaped(s: seq<Byte>): seq<Byte> {
    EscapedTo(s, |s|)
  }

  // ----- the code

  /** strcspn() with escape_chars, from an offset. */
  method SpecialAfter(s: seq<Byte>, from: nat) returns (pos: nat)
    requires from <= |s|
    ensures from <= pos <= |s| && (pos < |s| ==> Special(s[pos]))
    ensures forall i :: from <= i < pos ==> !Special(s[i])
  {
    pos := from;
    while pos < |s| && !Special(s[pos])
      invariant from <= pos <= |s|
      invariant forall i :: from <= i < pos ==> !Special(s[i])
    {
      pos := pos + 1;
    }
  }

  /** What is escaped: the value, repaired if it is not UTF-8. */
  ghost function Readable(input: seq<Byte>): seq<Byte> {
    if Valid(input) then input else Repaired(input, [])
  }

  /** The value is a C string, and so is what is escaped. */
  method Escape(input: seq<Byte>) returns (r: seq<Byte>)
    requires 0 !in input
    ensures r == Escaped(Readable(input)) && Safe(r)
  {
    var valid, repaired := GetValidData(input);
    RepairedValid(input, []);
    OutputIsSafe(Readable(input));
    r := EscapeChars(if valid then input else repaired);
  }

  /** The next character to be escaped; the leading one is checked separately, and the last one may be a trailing
      space. */
  method NextEscape(s: seq<Byte>, from: nat) returns (pos: nat)
    requires from <= |s|
    ensures from <= pos <= |s| && (pos < |s| ==> MustEscape(s, pos))
    ensures forall i :: from <= i < pos ==> !MustEscape(s, i)
  {
    if from == 0 && |s| > 0 && (s[0] == HASH || s[0] == SPACE) {
      return 0;
    }
    pos := SpecialAfter(s, from);
    if pos == |s| && pos > from && s[pos - 1] == SPACE {
      pos := pos - 1;
    }
  }

  method EscapeChars(s: seq<Byte>) returns (r: seq<Byte>)
    requires 0 !in s
    ensures r == Escaped(s)
  {
    var pos := NextEscape(s, 0);
    if pos == |s| {
      PlainRun(s, 0, |s|);
      assert s[0..|s|] == s;
      return s;
    }
    r := [];
    var done := 0;
    while pos < |s|
      invariant done <= pos <= |s| && r == EscapedTo(s, done)
      invariant pos < |s| ==> MustEscape(s, pos)
      invariant forall i :: done <= i < pos ==> !MustEscape(s, i)
      decreases |s| - done
    {
      PlainRun(s, done, pos);
      r := r + s[done..pos] + Hex(s[pos]);
      done := pos + 1;
      pos := NextEscape(s, done);
    }
    PlainRun(s, done, |s|);
    r := r + s[done..];
  }

  /** A run of characters that need no escaping is copied. */
  lemma {:induction false} PlainRun(s: seq<Byte>, from: nat, to: nat)
    requires from <= to <= |s| && forall i :: from <= i < to ==> !MustEscape(s, i)
    ensures EscapedTo(s, to) == EscapedTo(s, from) + s[from..to]
  {
    if from < to {
      PlainRun(s, from, to - 1);
      assert s[from..to] == s[from..to - 1] + [s[to - 1]];
    } else {
      assert s[from..to] == [];
    }
  }

  // ----- decoding

  function HexValue(b: Byte): Option<int> {
    if 0x30 <= b <= 0x39 then Some(b - 0x30)
    else if 0x61 <= b <= 0x66 then Some(b - 0x61 + 10)
    else if 0x41 <= b <= 0x46 then Some(b - 0x41 + 10)
    else None
  }

  /** What an LDAP server reads: every \hh is one octet (section 3 of RFC 4515, section 2.4 of RFC 4514). */
  function Decode(r: seq<Byte>): Option<seq<Byte>> {
    if r == [] then Some([])
    else if r[0] != BACKSLASH then
      match Decode(r[1..])
      case None => None
      case Some(rest) => Some([r[0]] + rest)
    else if |r| < 3 then None
    else
      match (HexValue(r[1]), HexValue(r[2]), Decode(r[3..]))
      case (Some(h), Some(l), Some(rest)) => Some([(16 * h + l) as Byte] + rest)
      case _ => None
  }

  lemma HexDecodes(b: Byte, rest: seq<Byte>)
    requires Decode(rest).Some?
    ensures Decode(Hex(b) + rest) == Some([b] + Decode(rest).value)
  {
    var r := Hex(b) + rest;
    assert r[3..] == rest;
    assert HexValue(HexDigit(b / 16)) == Some(b / 16) && HexValue(HexDigit(b % 16)) == Some(b % 16);
  }

  ghost function EscapedFrom(s: seq<Byte>, n: nat): seq<Byte>
    requires n <= |s|
    decreases |s| - n
  {
    if n == |s| then []
    else (if MustEscape(s, n) then Hex(s[n]) else [s[n]]) + EscapedFrom(s, n + 1)
  }

  lemma {:induction false} EscapedSplits(s: seq<Byte>, n: nat)
    requires n <= |s|
    ensures Escaped(s) == EscapedTo(s, n) + EscapedFrom(s, n)
    decreases |s| - n
  {
    if n < |s| {
      EscapedSplits(s, n + 1);
    }
  }

  lemma {:induction false} DecodesFrom(s: seq<Byte>, n: nat)
    requires n <= |s|
    ensures Decode(EscapedFrom(s, n)) == Some(s[n..])
    decreases |s| - n
  {
    if n < |s| {
      DecodesFrom(s, n + 1);
      assert s[n..] == [s[n]] + s[n + 1..];
      if MustEscape(s, n) {
        HexDecodes(s[n], EscapedFrom(s, n + 1));
      } else {
        assert ([s[n]] + EscapedFrom(s, n + 1))[1..] == EscapedFrom(s, n + 1);
      }
    } else {
      assert s[n..] == [];
    }
  }

  /** The server reads back exactly the value that was escaped; so different values never collide. */
  lemma RoundTrip(s: seq<Byte>)
    ensures Decode(Escaped(s)) == Some(s)
  {
    EscapedSplits(s, 0);
    DecodesFrom(s, 0);
    assert Escaped(s) == EscapedFrom(s, 0) && s[0..] == s;
  }

  /** For any input the server reads back UTF-8; it is the input exactly if that was UTF-8. */
  lemma RoundTripIff(input: seq<Byte>)
    ensures Decode(Escaped(Readable(input))) == Some(Readable(input)) && Valid(Readable(input))
    ensures Decode(Escaped(Readable(input))) == Some(input) <==> Valid(input)
  {
    RoundTrip(Readable(input));
    RepairedValid(input, []);
  }

  // ----- what the output cannot contain

  /** A hexadecimal digit, as an octet. */
  ghost predicate IsHex(b: Byte) {
    0x30 <= b <= 0x39 || 0x61 <= b <= 0x66
  }

  /** An octet of the output: not a control character, nor one of * ( ) , + < > ; " = */
  ghost predicate Harmless(b: Byte) {
    b > 0x1f && b !in {0x2a, 0x28, 0x29, 0x2c, 0x2b, 0x3c, 0x3e, 0x3b, 0x22, 0x3d}
  }

  /** A backslash starts an escape of two digits. */
  ghost predicate HarmlessAt(r: seq<Byte>, i: nat)
    requires i < |r|
  {
    Harmless(r[i]) && (r[i] == 0x5c ==> i + 2 < |r| && IsHex(r[i + 1]) && IsHex(r[i + 2]))
  }

  ghost predicate Safe(r: seq<Byte>) {
    forall i: nat :: i < |r| ==> HarmlessAt(r, i)
  }

  lemma SafeAppend(a: seq<Byte>, b: seq<Byte>)
    requires Safe(a) && Safe(b)
    ensures Safe(a + b)
  {
    var r := a + b;
    forall i: nat | i < |r| ensures HarmlessAt(r, i) {
      assert if i < |a| then HarmlessAt(a, i) else HarmlessAt(b, i - |a|);
    }
  }

  /** An escape is safe, and so is every octet that is not escaped. */
  lemma SafeOctet(b: Byte)
    ensures Safe(Hex(b))
    ensures !Special(b) && b != 0 ==> Safe([b])
  {
    var r := Hex(b);
    forall i: nat | i < |r| ensures HarmlessAt(r, i) {
    }
  }

  lemma {:induction false} SafeTo(s: seq<Byte>, n: nat)
    requires n <= |s| && 0 !in s
    ensures Safe(EscapedTo(s, n))
  {
    if n > 0 {
      SafeTo(s, n - 1);
      assert s[n - 1] in s;
      SafeOctet(s[n - 1]);
      SafeAppend(EscapedTo(s, n - 1), if MustEscape(s, n - 1) then Hex(s[n - 1]) else [s[n - 1]]);
    }
  }

  lemma Ends(s: seq<Byte>)
    requires s != []
    ensures var r := Escaped(s); r != [] && r[0] != 0x23 && r[0] != 0x20 && r[|r| - 1] != 0x20
  {
    var n := |s| - 1;
    assert EscapedTo(s, |s|) == EscapedTo(s, n) + if MustEscape(s, n) then Hex(s[n]) else [s[n]];
    EscapedSplits(s, 0);
    assert EscapedFrom(s, 0) == (if MustEscape(s, 0) then Hex(s[0]) else [s[0]]) + EscapedFrom(s, 1);
  }

  /** The output cannot break out of a filter or a DN: it has no control character and none of * ( ) , + < > ; " =, each
      backslash starts an escape, it does not start with "#" or a space, and it does not end with a space. */
  lemma OutputIsSafe(s: seq<Byte>)
    requires 0 !in s
    ensures Safe(Escaped(s))
    ensures Escaped(s) != [] ==>
              var r := Escaped(s); r[0] != 0x23 && r[0] != 0x20 && r[|r| - 1] != 0x20
    ensures Escaped(s) == [] <==> s == []
  {
    SafeTo(s, |s|);
    if s != [] {
      Ends(s);
    }
  }

  /** Nothing else is escaped: any other octet stands for itself. */
  lemma PlainStays(s: seq<Byte>, i: nat)
    requires i < |s| && Harmless(s[i]) && s[i] != 0x5c
    requires i == 0 ==> s[i] != 0x23 && s[i] != 0x20
    requires i == |s| - 1 ==> s[i] != 0x20
    ensures Escaped(s) == EscapedTo(s, i) + [s[i]] + EscapedFrom(s, i + 1)
  {
    assert EscapedTo(s, i + 1) == EscapedTo(s, i) + [s[i]] by {
      assert !MustEscape(s, i);
    }
    EscapedSplits(s, i + 1);
  }
}
