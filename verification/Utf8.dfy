/** UTF-8 as Dovecot reads it, and the repair of octets that are not UTF-8. */
module Utf8 {

  type Byte = b: int | 0 <= b < 256

  const REPLACEMENT: seq<Byte> := [0xef, 0xbf, 0xbd]    // U+FFFD

  /** uni_utf8_char_bytes(): how many octets a character with this first octet has; 1 for octets that start none. */
  function CharBytes(b: Byte): nat {
    if b < 0xc2 then 1
    else if b < 0xe0 then 2
    else if b < 0xf0 then 3
    else if b < 0xf8 then 4
    else if b < 0xfc then 5
    else if b < 0xfe then 6
    else 1
  }

  /** The bits that the first octet of a character contributes. */
  function LeadBits(b: Byte): nat
    requires CharBytes(b) > 1
  {
    match CharBytes(b)
    case 2 => b % 0x20
    case 3 => b % 0x10
    case 4 => b % 0x08
    case 5 => b % 0x04
    case _ => b % 0x02
  }

  function LowestValid(len: nat): nat {
    match len
    case 2 => 0x80
    case 3 => 0x800
    case 4 => 0x10000
    case 5 => 0x200000
    case 6 => 0x4000000
    case _ => 0
  }

  predicate Continuation(b: Byte) {
    b / 0x40 == 2
  }

  /** The code point of a character whose n octets are there. */
  function CodePoint(s: seq<Byte>, n: nat): nat
    requires 0 < n <= |s| && CharBytes(s[0]) > 1
  {
    if n == 1 then LeadBits(s[0]) else CodePoint(s, n - 1) * 0x40 + s[n - 1] % 0x40
  }

  predicate ValidCodePoint(c: nat) {
    !(0xd800 <= c <= 0xdfff) && c <= 0x10ffff
  }

  /** is_valid_utf8_seq(): the length of the character at the start, or 0 if there is none. */
  function CharLen(s: seq<Byte>): nat
    requires s != []
  {
    var len := CharBytes(s[0]);
    if s[0] < 0x80 then 1
    else if len == 1 || |s| < len || exists i :: 1 <= i < len && !Continuation(s[i]) then 0
    else if !ValidCodePoint(CodePoint(s, len)) || CodePoint(s, len) < LowestValid(len) then 0
    else len
  }

  ghost predicate In(b: Byte, low: int, high: int) {
    low <= b <= high
  }

  /** The well-formed characters of more than one octet, as the grammar in section 4 of RFC 3629 lists them. */
  ghost predicate WellFormed(s: seq<Byte>, n: nat) {
    && n <= |s|
    && match n
       case 2 => In(s[0], 0xc2, 0xdf) && In(s[1], 0x80, 0xbf)
       case 3 =>
         && In(s[2], 0x80, 0xbf)
         && (|| (s[0] == 0xe0 && In(s[1], 0xa0, 0xbf))
             || (In(s[0], 0xe1, 0xec) && In(s[1], 0x80, 0xbf))
             || (s[0] == 0xed && In(s[1], 0x80, 0x9f))
             || (In(s[0], 0xee, 0xef) && In(s[1], 0x80, 0xbf)))
       case 4 =>
         && In(s[2], 0x80, 0xbf) && In(s[3], 0x80, 0xbf)
         && (|| (s[0] == 0xf0 && In(s[1], 0x90, 0xbf))
             || (In(s[0], 0xf1, 0xf3) && In(s[1], 0x80, 0xbf))
             || (s[0] == 0xf4 && In(s[1], 0x80, 0x8f)))
       case _ => false
  }

  lemma ContinuationRange(b: Byte)
    ensures Continuation(b) <==> 0x80 <= b <= 0xbf
    ensures Continuation(b) ==> b % 0x40 == b - 0x80
  {
  }

  lemma LeadRange(b: Byte)
    requires CharBytes(b) > 1
    ensures CharBytes(b) == 2 ==> LeadBits(b) == b - 0xc0
    ensures CharBytes(b) == 3 ==> LeadBits(b) == b - 0xe0
    ensures CharBytes(b) == 4 ==> LeadBits(b) == b - 0xf0
  {
  }

  lemma TwoOctets(s: seq<Byte>)
    requires s != [] && CharBytes(s[0]) == 2
    ensures CharLen(s) == if WellFormed(s, 2) then 2 else 0
  {
    if |s| >= 2 {
      LeadRange(s[0]);
      ContinuationRange(s[1]);
      assert CodePoint(s, 1) == s[0] - 0xc0;
      assert CodePoint(s, 2) == CodePoint(s, 1) * 0x40 + s[1] % 0x40;
    }
  }

  lemma ThreeOctets(s: seq<Byte>)
    requires s != [] && CharBytes(s[0]) == 3
    ensures CharLen(s) == if WellFormed(s, 3) then 3 else 0
  {
    if |s| >= 3 {
      LeadRange(s[0]);
      ContinuationRange(s[1]);
      ContinuationRange(s[2]);
      assert CodePoint(s, 1) == s[0] - 0xe0;
      assert CodePoint(s, 2) == CodePoint(s, 1) * 0x40 + s[1] % 0x40;
      assert CodePoint(s, 3) == CodePoint(s, 2) * 0x40 + s[2] % 0x40;
    }
  }

  lemma FourOctets(s: seq<Byte>)
    requires s != [] && CharBytes(s[0]) == 4
    ensures CharLen(s) == if WellFormed(s, 4) then 4 else 0
  {
    if |s| >= 4 {
      LeadRange(s[0]);
      ContinuationRange(s[1]);
      ContinuationRange(s[2]);
      ContinuationRange(s[3]);
      assert CodePoint(s, 1) == s[0] - 0xf0;
      assert CodePoint(s, 2) == CodePoint(s, 1) * 0x40 + s[1] % 0x40;
      assert CodePoint(s, 3) == CodePoint(s, 2) * 0x40 + s[2] % 0x40;
      assert CodePoint(s, 4) == CodePoint(s, 3) * 0x40 + s[3] % 0x40;
    }
  }

  /** The code accepts exactly the characters of RFC 3629; those of five and six octets are overlong or beyond
      Unicode. */
  lemma CharsOfRfc3629(s: seq<Byte>, n: nat)
    requires s != [] && n > 0
    ensures CharLen(s) == n <==> if n == 1 then s[0] < 0x80 else WellFormed(s, n)
  {
    match CharBytes(s[0])
    case 2 => TwoOctets(s);
    case 3 => ThreeOctets(s);
    case 4 => FourOctets(s);
    case _ =>
  }

  // ----- strings

  /** A sequence of characters. */
  ghost predicate Valid(s: seq<Byte>) {
    s == [] || (CharLen(s) > 0 && Valid(s[CharLen(s)..]))
  }

  /** Only its own octets decide about a character. */
  lemma CharLenLocal(s: seq<Byte>, t: seq<Byte>)
    requires s != [] && CharLen(s) > 0 && |t| >= CharLen(s) && t[..CharLen(s)] == s[..CharLen(s)]
    ensures CharLen(t) == CharLen(s)
  {
    var n := CharLen(s);
    assert forall i :: 0 <= i < n ==> t[..n][i] == s[..n][i];
    CharsOfRfc3629(s, n);
    CharsOfRfc3629(t, n);
  }

  lemma {:induction false} ValidAppend(a: seq<Byte>, b: seq<Byte>)
    requires Valid(a) && Valid(b)
    ensures Valid(a + b)
  {
    if a == [] {
      assert a + b == b;
    } else {
      var n := CharLen(a);
      assert (a + b)[..n] == a[..n];
      CharLenLocal(a, a + b);
      ValidAppend(a[n..], b);
      assert (a + b)[n..] == a[n..] + b;
    }
  }

  lemma ValidChar(s: seq<Byte>)
    requires s != [] && CharLen(s) > 0
    ensures Valid(s[..CharLen(s)])
  {
    var c := s[..CharLen(s)];
    CharLenLocal(s, c);
    assert c[CharLen(s)..] == [];
  }

  /** Whether a string ends with the replacement character. */
  predicate EndsReplaced(s: seq<Byte>) {
    |s| >= |REPLACEMENT| && s[|s| - |REPLACEMENT|..] == REPLACEMENT
  }

  /** What takes the place of octets that start no character: one replacement character for any number of them. */
  ghost function Repaired(s: seq<Byte>, done: seq<Byte>): seq<Byte>
    decreases |s|
  {
    if s == [] then done
    else if CharLen(s) > 0 then Repaired(s[CharLen(s)..], done + s[..CharLen(s)])
    else Repaired(s[1..], if EndsReplaced(done) then done else done + REPLACEMENT)
  }

  /** One character, or one octet that starts none. */
  lemma RepairStep(s: seq<Byte>, i: nat, done: seq<Byte>, len: nat)
    requires i < |s| && len == CharLen(s[i..])
    ensures i + len <= |s|
    ensures len > 0 ==> Repaired(s[i..], done) == Repaired(s[i + len..], done + s[i..i + len])
    ensures len == 0 ==>
              Repaired(s[i..], done) == Repaired(s[i + 1..], if EndsReplaced(done) then done else done + REPLACEMENT)
  {
    var rest := s[i..];
    assert rest[1..] == s[i + 1..];
    assert rest[..len] == s[i..i + len] && rest[len..] == s[i + len..];
  }

  lemma ValidStep(s: seq<Byte>, i: nat, len: nat)
    requires i < |s| && len == CharLen(s[i..])
    ensures i + len <= |s|
    ensures Valid(s[i..]) <==> len > 0 && Valid(s[i + len..])
  {
    assert s[i..][len..] == s[i + len..];
  }

  method NextChar(s: seq<Byte>, i: nat) returns (len: nat)
    requires i < |s|
    ensures len == CharLen(s[i..])
  {
    len := CharLen(s[i..]);
  }

  /** uni_utf8_find_invalid_pos() */
  method FindInvalid(s: seq<Byte>) returns (valid: bool, pos: nat)
    ensures valid <==> Valid(s)
    ensures pos <= |s| && Repaired(s, []) == Repaired(s[pos..], s[..pos])
    ensures if valid then pos == |s| else pos < |s| && CharLen(s[pos..]) == 0
  {
    pos := 0;
    ghost var kept, rest, final := s[..0], s[0..], Repaired(s, []);
    assert rest == s && kept == [];
    while pos < |s|
      invariant pos <= |s| && rest == s[pos..] && kept == s[..pos]
      invariant Valid(rest) <==> Valid(s)
      invariant Repaired(rest, kept) == final
    {
      var len := NextChar(s, pos);
      RepairStep(s, pos, kept, len);
      ValidStep(s, pos, len);
      if len == 0 {
        return false, pos;
      }
      SliceStep(s, pos, len);
      kept, rest := kept + s[pos..pos + len], s[pos + len..];
      pos := pos + len;
    }
    valid := true;
  }

  lemma SliceStep(s: seq<Byte>, pos: nat, len: nat)
    requires pos + len <= |s|
    ensures s[..pos] + s[pos..pos + len] == s[..pos + len]
  {
  }

  /** uni_utf8_get_valid_data(): a string that is not UTF-8 is repaired. */
  method GetValidData(s: seq<Byte>) returns (valid: bool, repaired: seq<Byte>)
    ensures valid <==> Valid(s)
    ensures !valid ==> repaired == Repaired(s, [])
  {
    var i;
    valid, i := FindInvalid(s);
    if valid {
      return true, [];
    }
    RepairStep(s, i, s[..i], 0);
    repaired := AddReplacement(s[..i]);
    repaired := RepairFrom(s, i + 1, repaired);
  }

  method RepairFrom(s: seq<Byte>, from: nat, done: seq<Byte>) returns (repaired: seq<Byte>)
    requires from <= |s|
    ensures repaired == Repaired(s[from..], done)
  {
    repaired := done;
    var i := from;
    ghost var final := Repaired(s[from..], done);
    while i < |s|
      invariant i <= |s| && Repaired(s[i..], repaired) == final
    {
      var len := NextChar(s, i);
      RepairStep(s, i, repaired, len);
      if len == 0 {
        repaired := AddReplacement(repaired);
        i := i + 1;
      } else {
        repaired := repaired + s[i..i + len];
        i := i + len;
      }
    }
  }

  /** output_add_replacement_char(): never twice in a row. */
  method AddReplacement(out: seq<Byte>) returns (out': seq<Byte>)
    ensures out' == if EndsReplaced(out) then out else out + REPLACEMENT
  {
    out' := if EndsReplaced(out) then out else out + REPLACEMENT;
  }

  lemma ReplacementValid()
    ensures Valid(REPLACEMENT)
  {
    CharsOfRfc3629(REPLACEMENT, 3);
    assert REPLACEMENT[3..] == [];
  }

  /** The repaired string is UTF-8, and no octet of it is zero unless one was. */
  lemma {:induction false} RepairedValid(s: seq<Byte>, done: seq<Byte>)
    requires Valid(done)
    ensures Valid(Repaired(s, done))
    ensures 0 !in s && 0 !in done ==> 0 !in Repaired(s, done)
    decreases |s|
  {
    if s != [] {
      var n := CharLen(s);
      if n > 0 {
        ValidChar(s);
        ValidAppend(done, s[..n]);
        RepairedValid(s[n..], done + s[..n]);
      } else {
        ReplacementValid();
        ValidAppend(done, REPLACEMENT);
        RepairedValid(s[1..], if EndsReplaced(done) then done else done + REPLACEMENT);
      }
    }
  }

  /** Only UTF-8 is its own repair. */
  lemma RepairedSame(s: seq<Byte>)
    ensures Repaired(s, []) == s <==> Valid(s)
  {
    RepairedValid(s, []);
    if Valid(s) {
      RepairedOfValid(s, []);
    }
  }

  lemma {:induction false} RepairedOfValid(s: seq<Byte>, done: seq<Byte>)
    requires Valid(s)
    ensures Repaired(s, done) == done + s
  {
    if s != [] {
      var n := CharLen(s);
      RepairedOfValid(s[n..], done + s[..n]);
      assert s == s[..n] + s[n..];
    }
  }
}
