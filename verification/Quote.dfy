/** Strings as JSON text and back without repairing them: invalid UTF-8 is kept
    as it is, and a code unit without its pair as an escape. */
module Quote {
  import opened Entries
  import opened Utf8
  import opened Surrogates

  const QUOTE: Byte := 0x22

  // ----- the three bytes of a surrogate -----

  predicate Triple(s: seq<Byte>) {
    |s| >= 3 && s[0] == 0xED && 0xA0 <= s[1] <= 0xBF && 0x80 <= s[2] <= 0xBF
  }

  function TripleUnit(s: seq<Byte>): (u: nat)
    requires Triple(s)
    ensures IsHigh(u) || IsLow(u)
  {
    0xD000 + (s[1] as int) % 64 * 64 + (s[2] as int) % 64
  }

  function TripleOf(u: nat): seq<Byte>
    requires IsHigh(u) || IsLow(u)
  {
    [0xE0 + u / 4096, 0x80 + u / 64 % 64, 0x80 + u % 64]
  }

  lemma TripleBack(s: seq<Byte>)
    requires Triple(s)
    ensures TripleOf(TripleUnit(s)) == s[..3]
  {
    hide IsHigh, IsLow;
    var (h, l) := (s[1] as int - 128, s[2] as int - 128);
    assert s[1] as int % 64 == h && s[2] as int % 64 == l;
    TripleDigits(h, l);
  }

  lemma TripleDigits(h: nat, l: nat)
    requires h < 64 && l < 64
    ensures var u := 0xD000 + h * 64 + l; u / 4096 == 13 && u / 64 % 64 == h && u % 64 == l
  {
    var u := 0xD000 + h * 64 + l;
    assert u / 64 == 832 + h;
  }

  predicate HighTriple(s: seq<Byte>) {
    Triple(s) && IsHigh(TripleUnit(s))
  }

  predicate LowTriple(s: seq<Byte>) {
    Triple(s) && IsLow(TripleUnit(s))
  }

  // ----- quoting -----

  function Digit(n: nat): Byte
    requires n < 16
  {
    if n < 10 then '0' as int + n else 'a' as int + n - 10
  }

  function Escape(u: nat): seq<Byte>
    requires u < 0x1_0000
  {
    [BACKSLASH, LETTER_U, Digit(u / 4096), Digit(u / 256 % 16), Digit(u / 16 % 16), Digit(u % 16)]
  }

  /** The letter of a two-character escape. */
  function Letter(c: Byte): Option<Byte> {
    if c == QUOTE || c == BACKSLASH then Some(c)
    else if c == 8 then Some('b' as int)
    else if c == 12 then Some('f' as int)
    else if c == 10 then Some('n' as int)
    else if c == 13 then Some('r' as int)
    else if c == 9 then Some('t' as int)
    else None
  }

  function Ascii(c: Byte): seq<Byte>
    requires c < 0x80
  {
    if Letter(c).Some? then [BACKSLASH, Letter(c).value] else if c < 0x20 then Escape(c) else [c]
  }

  /** How much quoting reads at the start of s, and what it writes. */
  function QuoteStep(s: seq<Byte>, keepInvalid: bool): (r: (nat, seq<Byte>))
    requires s != []
    ensures 0 < r.0 <= |s|
  {
    if s[0] < 0x80 then (1, Ascii(s[0]))
    else if Triple(s) then (3, Escape(TripleUnit(s)))
    else if CharacterAt(s) == 0 then
      if keepInvalid then (1, [s[0]]) else (Subpart(s), REPLACEMENT)
    else (CharacterAt(s), s[..CharacterAt(s)])
  }

  function QuotedText(s: seq<Byte>, keepInvalid: bool): seq<Byte> {
    if s == [] then [] else QuoteStep(s, keepInvalid).1 + QuotedText(s[QuoteStep(s, keepInvalid).0..], keepInvalid)
  }

  method QuoteLoose(s: seq<Byte>, keepInvalid: bool) returns (out: seq<Byte>)
    ensures out == [QUOTE] + QuotedText(s, keepInvalid) + [QUOTE]
  {
    hide Triple, CharacterAt, Subpart;
    out := [QUOTE];
    var i := 0;
    while i < |s|
      invariant i <= |s| && out + QuotedText(s[i..], keepInvalid) == [QUOTE] + QuotedText(s, keepInvalid)
    {
      var (n, text) := QuoteStep(s[i..], keepInvalid);
      ghost var rest := QuotedText(s[i + n..], keepInvalid);
      assert s[i..][n..] == s[i + n..];
      assert out + (text + rest) == out + text + rest;
      out := out + text;
      i := i + n;
    }
    assert s[i..] == [];
    out := out + [QUOTE];
  }

  // ----- unquoting -----

  function Unescaped(c: Byte): seq<Byte> {
    if c == QUOTE || c == BACKSLASH || c == '/' as int then [c]
    else if c == 'b' as int then [8]
    else if c == 'f' as int then [12]
    else if c == 'n' as int then [10]
    else if c == 'r' as int then [13]
    else if c == 't' as int then [9]
    else [BACKSLASH, c]
  }

  function PairValue(high: nat, low: nat): (u: nat)
    requires IsHigh(high) && IsLow(low)
    ensures 0x1_0000 <= u < 0x11_0000
  {
    0x1_0000 + (high - 0xD800) * 1024 + (low - 0xDC00)
  }

  /** The value four hexadecimal digits can have. */
  lemma {:induction false} HexFits(s: seq<Byte>, n: nat)
    requires n <= 4 && n <= |s|
    ensures HexRead(s, n).Some? ==> HexRead(s, n).value < (if n == 0 then 1 else if n == 1 then 16 else if n == 2 then 256 else if n == 3 then 4096 else 0x1_0000)
  {
    if n > 0 {
      HexFits(s, n - 1);
    }
  }

  lemma UnitFits(s: seq<Byte>)
    ensures UnitAt(s).Some? ==> UnitAt(s).value < 0x1_0000
  {
    if UnitAt(s).Some? {
      HexFits(s[2..], 4);
    }
  }

  function UnquoteStep(t: seq<Byte>): (r: (nat, seq<Byte>))
    requires t != []
    ensures 0 < r.0 <= |t|
  {
    if t[0] != BACKSLASH || |t| == 1 then (1, [t[0]])
    else
      match UnitAt(t)
      case None => (2, Unescaped(t[1]))
      case Some(u) =>
        UnitFits(t);
        if IsHigh(u) && UnitAt(t[6..]).Some? && IsLow(UnitAt(t[6..]).value) then (12, Encode(PairValue(u, UnitAt(t[6..]).value)))
        else if IsHigh(u) || IsLow(u) then (6, TripleOf(u))
        else (6, Encode(u))
  }

  function Unquoted(t: seq<Byte>): seq<Byte> {
    if t == [] then [] else UnquoteStep(t).1 + Unquoted(t[UnquoteStep(t).0..])
  }

  function Stripped(tok: seq<Byte>): seq<Byte> {
    var s := if |tok| > 0 && tok[0] == QUOTE then tok[1..] else tok;
    if |s| > 0 && s[|s| - 1] == QUOTE then s[..|s| - 1] else s
  }

  method UnquoteLoose(tok: seq<Byte>) returns (out: seq<Byte>)
    ensures out == Unquoted(Stripped(tok))
  {
    hide UnquoteStep;
    var s := tok;
    if |s| > 0 && s[0] == QUOTE {
      s := s[1..];
    }
    if |s| > 0 && s[|s| - 1] == QUOTE {
      s := s[..|s| - 1];
    }
    out := [];
    var i := 0;
    while i < |s|
      invariant i <= |s| && out + Unquoted(s[i..]) == Unquoted(s)
    {
      var n, text := UnquoteAt(s, i);
      ghost var rest := Unquoted(s[i + n..]);
      assert s[i..][n..] == s[i + n..];
      assert out + (text + rest) == out + text + rest;
      out := out + text;
      i := i + n;
    }
    assert s[i..] == [];
  }

  method UnquoteAt(s: seq<Byte>, i: nat) returns (n: nat, text: seq<Byte>)
    requires i < |s|
    ensures (n, text) == UnquoteStep(s[i..])
  {
    if s[i] != BACKSLASH || i + 1 >= |s| {
      return 1, [s[i]];
    }
    var u := SurrogateAt(s, i);
    if u.Some? {
      UnitFits(s[i..]);
      if IsHigh(u.value) {
        var low := SurrogateAt(s, i + 6);
        assert s[i..][6..] == s[i + 6..];
        if low.Some? && IsLow(low.value) {
          return 12, Encode(PairValue(u.value, low.value));
        }
      }
      if IsHigh(u.value) || IsLow(u.value) {
        return 6, TripleOf(u.value);
      }
      return 6, Encode(u.value);
    }
    return 2, Unescaped(s[i + 1]);
  }

  // ----- unquoting what was quoted -----

  /** The pairs that would come back as the one character they encode. */
  function Merged(s: seq<Byte>): seq<Byte> {
    if s == [] then []
    else if HighTriple(s) && LowTriple(s[3..]) then Encode(PairValue(TripleUnit(s), TripleUnit(s[3..]))) + Merged(s[6..])
    else [s[0]] + Merged(s[1..])
  }

  /** A high surrogate's bytes directly followed by a low one's. */
  ghost predicate HasPair(s: seq<Byte>) {
    exists i :: 0 <= i <= |s| - 6 && PairAt(s, i)
  }

  predicate PairAt(s: seq<Byte>, i: nat)
    requires i + 6 <= |s|
  {
    HighTriple(s[i..]) && LowTriple(s[i + 3..])
  }

  lemma {:induction false} MergedSame(s: seq<Byte>)
    ensures |Merged(s)| <= |s|
    ensures if HasPair(s) then |Merged(s)| < |s| else Merged(s) == s
    decreases |s|
  {
    if s != [] {
      if HighTriple(s) && LowTriple(s[3..]) {
        MergedSame(s[6..]);
        assert s[0..] == s;
        assert PairAt(s, 0);
      } else {
        MergedSame(s[1..]);
        assert s == [s[0]] + s[1..];
        if HasPair(s) {
          var i :| 0 <= i <= |s| - 6 && PairAt(s, i);
          assert s[0..] == s;
          assert s[1..][i - 1..] == s[i..] && s[1..][i - 1 + 3..] == s[i + 3..];
          assert PairAt(s[1..], i - 1);
        }
        if HasPair(s[1..]) {
          var i :| 0 <= i <= |s[1..]| - 6 && PairAt(s[1..], i);
          assert s[1..][i..] == s[i + 1..] && s[1..][i + 3..] == s[i + 1 + 3..];
          assert PairAt(s, i + 1);
        }
      }
    }
  }

  lemma EscapeUnit(u: nat, rest: seq<Byte>)
    requires u < 0x1_0000
    ensures UnitAt(Escape(u) + rest) == Some(u) && (Escape(u) + rest)[6..] == rest
  {
    hide Digit, HexRead;
    var t := Escape(u) + rest;
    var d := t[2..];
    var (w, x, y, z) := (u / 4096, u / 256 % 16, u / 16 % 16, u % 16);
    assert d[0] == Digit(w) && d[1] == Digit(x) && d[2] == Digit(y) && d[3] == Digit(z);
    HexDigits(d, w, x, y, z);
    HexSum(u);
  }

  lemma HexSum(u: nat)
    ensures u / 4096 * 16 + u / 256 % 16 == u / 256
    ensures u / 256 * 16 + u / 16 % 16 == u / 16
    ensures u / 16 * 16 + u % 16 == u
  {
    assert u / 256 == u / 16 / 16 && u / 4096 == u / 256 / 16;
  }

  lemma HexDigits(d: seq<Byte>, w: nat, x: nat, y: nat, z: nat)
    requires w < 16 && x < 16 && y < 16 && z < 16
    requires |d| >= 4 && d[0] == Digit(w) && d[1] == Digit(x) && d[2] == Digit(y) && d[3] == Digit(z)
    ensures HexRead(d, 4) == Some(((w * 16 + x) * 16 + y) * 16 + z)
  {
    DigitValue(w);
    DigitValue(x);
    DigitValue(y);
    DigitValue(z);
    hide Digit, HexValue;
    assert HexRead(d, 0) == Some(0);
    assert HexRead(d, 1) == Some(w);
    assert HexRead(d, 2) == Some(w * 16 + x);
    assert HexRead(d, 3) == Some((w * 16 + x) * 16 + y);
  }

  lemma DigitValue(n: nat)
    requires n < 16
    ensures HexValue(Digit(n)) == Some(n)
  {}

  lemma UnquoteFirst(t: seq<Byte>, n: nat, out: seq<Byte>)
    requires t != [] && UnquoteStep(t) == (n, out)
    ensures Unquoted(t) == out + Unquoted(t[n..])
  {
    hide UnquoteStep;
  }

  lemma UnquoteByte(t: seq<Byte>)
    requires t != [] && t[0] != BACKSLASH
    ensures Unquoted(t) == [t[0]] + Unquoted(t[1..])
  {
    hide UnitAt;
  }

  /** Bytes that start no escape come through as they are. */
  lemma {:induction false} UnquotePlain(p: seq<Byte>, rest: seq<Byte>)
    requires BACKSLASH !in p
    ensures Unquoted(p + rest) == p + Unquoted(rest)
  {
    hide UnquoteStep, Unquoted;
    if p == [] {
      assert p + rest == rest;
    } else {
      var (t, tail) := (p + rest, p[1..]);
      assert t[0] == p[0] && t[1..] == tail + rest;
      UnquoteByte(t);
      UnquotePlain(tail, rest);
      assert [p[0]] + (tail + Unquoted(rest)) == p + Unquoted(rest);
    }
  }

  lemma UnquoteAscii(c: Byte, rest: seq<Byte>)
    requires c < 0x80
    ensures Unquoted(Ascii(c) + rest) == [c] + Unquoted(rest)
  {
    var t := Ascii(c) + rest;
    if Letter(c).Some? {
      assert t[1] == Letter(c).value && t[1] != LETTER_U;
      UnquoteFirst(t, 2, [c]);
      assert t[2..] == rest;
    } else if c < 0x20 {
      EscapeUnit(c, rest);
      UnquoteFirst(t, 6, [c]);
    } else {
      UnquotePlain([c], rest);
    }
  }

  /** An escape for a low surrogate comes from a low surrogate's bytes alone. */
  lemma QuotedStart(s: seq<Byte>)
    ensures var u := UnitAt(QuotedText(s, true));
            (u.Some? && IsLow(u.value) <==> LowTriple(s)) && (LowTriple(s) ==> u == Some(TripleUnit(s)))
  {
    if s != [] {
      var (n, text) := QuoteStep(s, true);
      var rest := QuotedText(s[n..], true);
      if s[0] < 0x80 {
        if Letter(s[0]).None? && s[0] < 0x20 {
          EscapeUnit(s[0], rest);
        } else {
          assert (text + rest)[0] == text[0];
          assert |text| == 2 ==> (text + rest)[1] == text[1] != LETTER_U;
        }
      } else if Triple(s) {
        EscapeUnit(TripleUnit(s), rest);
      } else {
        assert (text + rest)[0] == s[0] != BACKSLASH;
      }
    }
  }

  /** No high surrogate starts in the first k bytes. */
  ghost predicate Plain(s: seq<Byte>, k: nat)
    requires k <= |s|
  {
    forall j | 0 <= j < k :: !HighTriple(s[j..])
  }

  lemma PlainFirst(s: seq<Byte>, k: nat)
    requires 0 < k <= |s| && Plain(s, k)
    ensures Merged(s) == [s[0]] + Merged(s[1..]) && Plain(s[1..], k - 1)
  {
    assert s[0..] == s;
    assert forall j | 0 <= j < k - 1 :: s[1..][j..] == s[j + 1..];
  }

  /** Bytes none of which can begin a surrogate are merged as they are. */
  lemma {:induction false} MergedPlain(s: seq<Byte>, k: nat)
    requires k <= |s| && Plain(s, k)
    ensures Merged(s) == s[..k] + Merged(s[k..])
  {
    hide Merged, HighTriple, Plain;
    if k > 0 {
      PlainFirst(s, k);
      MergedPlain(s[1..], k - 1);
      assert s[..k] == [s[0]] + s[1..][..k - 1] && s[1..][k - 1..] == s[k..];
    } else {
      assert s[..0] == [] && s[0..] == s;
    }
  }

  /** No surrogate stands within a character, at its start or later. */
  lemma CharacterPlain(s: seq<Byte>)
    requires CharacterAt(s) > 0
    ensures forall j | 0 <= j < CharacterAt(s) :: !HighTriple(s[j..]) && (s[0] >= 0x80 ==> s[j] != BACKSLASH)
  {
    var n := CharacterAt(s);
    assert forall j | 0 <= j < n :: s[..n][j] == s[j];
    assert forall j | 1 <= j < n :: s[j] < 0xC0;
    assert s[0..] == s;
    assert forall j | 0 <= j < n :: s[j..][0] == s[j];
    if s[0] == 0xED {
      assert Follows(s[0], 1, s[..n][1]);
    }
  }

  lemma UnquotePair(s: seq<Byte>, rest: seq<Byte>)
    requires HighTriple(s) && LowTriple(s[3..])
    ensures Unquoted(Escape(TripleUnit(s)) + (Escape(TripleUnit(s[3..])) + rest))
         == Encode(PairValue(TripleUnit(s), TripleUnit(s[3..]))) + Unquoted(rest)
  {
    hide UnitAt, Escape, Encode, PairValue;
    var (u, v) := (TripleUnit(s), TripleUnit(s[3..]));
    var t := Escape(u) + (Escape(v) + rest);
    EscapeUnit(u, Escape(v) + rest);
    EscapeUnit(v, rest);
    assert t[12..] == t[6..][6..] == rest;
    UnquoteFirst(t, 12, Encode(PairValue(u, v)));
  }

  lemma UnquoteLone(s: seq<Byte>, rest: seq<Byte>)
    requires Triple(s) && (HighTriple(s) ==> var u := UnitAt(rest); !(u.Some? && IsLow(u.value)))
    ensures Unquoted(Escape(TripleUnit(s)) + rest) == s[..3] + Unquoted(rest)
  {
    hide UnitAt, Escape;
    var u := TripleUnit(s);
    EscapeUnit(u, rest);
    TripleBack(s);
    UnquoteFirst(Escape(u) + rest, 6, TripleOf(u));
  }

  lemma TriplePlain(s: seq<Byte>)
    requires Triple(s) && !(HighTriple(s) && LowTriple(s[3..]))
    ensures Merged(s) == s[..3] + Merged(s[3..])
  {
    assert forall j | 0 <= j < 2 :: s[1..][j..][0] == s[j + 1];
    MergedPlain(s[1..], 2);
    assert s[1..][2..] == s[3..] && s[..3] == [s[0]] + s[1..][..2];
  }

  /** Unquoting what was quoted gives the text back, with every surrogate pair
      spelled in six bytes merged into the character it encodes. */
  lemma {:induction false} UnquoteQuoted(s: seq<Byte>)
    ensures Unquoted(QuotedText(s, true)) == Merged(s)
    decreases |s|
  {
    if s != [] {
      hide UnitAt, Escape, Encode, PairValue, UnquoteStep, Character, TripleUnit, Ascii, Unquoted;
      var (n, text) := QuoteStep(s, true);
      var rest := QuotedText(s[n..], true);
      UnquoteQuoted(s[n..]);
      if s[0] < 0x80 {
        UnquoteAscii(s[0], rest);
      } else if Triple(s) {
        QuotedStart(s[3..]);
        if HighTriple(s) && LowTriple(s[3..]) {
          var after := QuotedText(s[6..], true);
          assert s[3..][3..] == s[6..];
          UnquoteQuoted(s[6..]);
          assert rest == Escape(TripleUnit(s[3..])) + after;
          UnquotePair(s, after);
        } else {
          UnquoteLone(s, rest);
          TriplePlain(s);
        }
      } else if CharacterAt(s) == 0 {
        UnquotePlain([s[0]], rest);
      } else {
        CharacterPlain(s);
        UnquotePlain(s[..n], rest);
        MergedPlain(s, n);
      }
    } else {
      assert QuotedText(s, true) == [] && Unquoted([]) == [];
    }
  }

  /** The loose round trip is the identity on every byte string, invalid UTF-8
      and lone surrogates included, in which no high surrogate's bytes are
      directly followed by a low one's, and on no other. */
  lemma LooseRoundTrip(s: seq<Byte>)
    ensures Unquoted(Stripped([QUOTE] + QuotedText(s, true) + [QUOTE])) == s <==> !HasPair(s)
  {
    var tok := [QUOTE] + QuotedText(s, true) + [QUOTE];
    assert tok[1..] == QuotedText(s, true) + [QUOTE];
    assert Stripped(tok) == QuotedText(s, true);
    UnquoteQuoted(s);
    MergedSame(s);
  }
}
