/** Escapes for UTF-16 code units in a JSON string, and the repair of those
    that are surrogates without their pair. */
module Surrogates {
  import opened Entries
  import opened Utf8

  const BACKSLASH: Byte := 0x5C
  const LETTER_U: Byte := 0x75

  function HexValue(c: Byte): Option<nat> {
    if '0' as int <= c <= '9' as int then Some(c - '0' as int)
    else if 'a' as int <= c <= 'f' as int then Some(c - 'a' as int + 10)
    else if 'A' as int <= c <= 'F' as int then Some(c - 'A' as int + 10)
    else None
  }

  /** The value of n hexadecimal digits from the start, if they are that. */
  function HexRead(s: seq<Byte>, n: nat): (u: Option<nat>)
    requires n <= |s|
  {
    if n == 0 then Some(0)
    else
      match HexRead(s, n - 1)
      case None => None
      case Some(high) => match HexValue(s[n - 1]) case None => None case Some(d) => Some(high * 16 + d)
  }

  /** The code unit of an escape that s opens with. */
  function UnitAt(s: seq<Byte>): (u: Option<nat>)
    ensures u.Some? ==> |s| >= 6 && s[0] == BACKSLASH
  {
    if |s| < 6 || s[0] != BACKSLASH || s[1] != LETTER_U then None else HexRead(s[2..], 4)
  }

  method SurrogateAt(s: seq<Byte>, i: nat) returns (unit: Option<nat>)
    ensures unit == if i <= |s| then UnitAt(s[i..]) else None
  {
    if i + 6 > |s| || s[i] != BACKSLASH || s[i + 1] != LETTER_U {
      return None;
    }
    var value: nat := 0;
    ghost var digits := s[i..][2..];
    for k := 0 to 4
      invariant HexRead(digits, k) == Some(value)
    {
      var c := s[i + 2 + k];
      assert c == digits[k];
      if HexValue(c) == None {
        HexStops(digits, k + 1, 4);
        return None;
      }
      value := value * 16 + HexValue(c).value;
    }
    return Some(value);
  }

  lemma {:induction false} HexStops(s: seq<Byte>, k: nat, n: nat)
    requires k <= n <= |s| && HexRead(s, k) == None
    ensures HexRead(s, n) == None
  {
    if k < n {
      HexStops(s, k, n - 1);
    }
  }

  predicate IsHigh(u: nat) {
    0xD800 <= u <= 0xDBFF
  }

  predicate IsLow(u: nat) {
    0xDC00 <= u <= 0xDFFF
  }

  // ----- a string as its escapes and everything else -----

  /** An escape for a code unit, or other bytes: an escape of another kind with
      the byte it escapes, or one byte. */
  datatype Token = Code(unit: nat, text: seq<Byte>) | Raw(text: seq<Byte>)

  function FirstToken(s: seq<Byte>): (t: Token)
    requires s != []
    ensures 0 < |t.text| <= |s| && t.text == s[..|t.text|] && (t.Code? ==> |t.text| == 6)
  {
    if s[0] != BACKSLASH then Raw(s[..1])
    else if UnitAt(s).Some? then Code(UnitAt(s).value, s[..6])
    else if |s| >= 2 then Raw(s[..2])
    else Raw(s)
  }

  function Tokens(s: seq<Byte>): seq<Token> {
    if s == [] then [] else [FirstToken(s)] + Tokens(s[|FirstToken(s).text|..])
  }

  function Joined(ts: seq<Token>): seq<Byte> {
    if ts == [] then [] else ts[0].text + Joined(ts[1..])
  }

  lemma {:induction false} TokensJoin(s: seq<Byte>)
    ensures Joined(Tokens(s)) == s
    decreases |s|
  {
    hide FirstToken;
    if s != [] {
      var n := |FirstToken(s).text|;
      TokensJoin(s[n..]);
      assert Tokens(s)[1..] == Tokens(s[n..]);
      assert s == s[..n] + s[n..];
    }
  }

  /** A high surrogate with the low one after it, or nothing to pair. */
  predicate Paired(ts: seq<Token>) {
    |ts| >= 2 && ts[0].Code? && IsHigh(ts[0].unit) && ts[1].Code? && IsLow(ts[1].unit)
  }

  predicate Lone(t: Token) {
    t.Code? && (IsHigh(t.unit) || IsLow(t.unit))
  }

  /** Every surrogate escape stands in a pair. */
  predicate NoLone(ts: seq<Token>) {
    if ts == [] then true
    else if Paired(ts) then NoLone(ts[2..])
    else !Lone(ts[0]) && NoLone(ts[1..])
  }

  // ----- the repair -----

  /** How much is read at the start of s, and whether it is a lone surrogate. */
  function Step(s: seq<Byte>): (r: (nat, bool))
    requires s != []
    ensures 0 < r.0 <= |s|
  {
    if s[0] != BACKSLASH then (1, false)
    else
      match UnitAt(s)
      case None => (if |s| >= 2 then 2 else 1, false)
      case Some(u) =>
        if IsHigh(u) && UnitAt(s[6..]).Some? && IsLow(UnitAt(s[6..]).value) then (12, false)
        else (6, IsHigh(u) || IsLow(u))
  }

  function Written(s: seq<Byte>): seq<Byte>
    requires s != []
  {
    if Step(s).1 then REPLACEMENT else s[..Step(s).0]
  }

  function Fixed(s: seq<Byte>): seq<Byte> {
    if s == [] then [] else Written(s) + Fixed(s[Step(s).0..])
  }

  method StepAt(s: seq<Byte>, i: nat) returns (n: nat, lone: bool)
    requires i < |s|
    ensures (n, lone) == Step(s[i..])
  {
    if s[i] != BACKSLASH {
      return 1, false;
    }
    var hi := SurrogateAt(s, i);
    if hi == None {
      return if i + 1 < |s| then 2 else 1, false;
    }
    if IsHigh(hi.value) {
      var lo := SurrogateAt(s, i + 6);
      assert s[i..][6..] == s[i + 6..];
      if lo.Some? && IsLow(lo.value) {
        return 12, false;
      }
      return 6, true;
    }
    return 6, IsLow(hi.value);
  }

  lemma FixedNothing()
    ensures Fixed([]) == []
  {}

  lemma FixedStep(s: seq<Byte>, i: nat, n: nat, lone: bool, before: seq<Byte>)
    requires i < |s| && Step(s[i..]) == (n, lone)
    ensures i + n <= |s|
    ensures before + Fixed(s[i..]) == before + (if lone then REPLACEMENT else s[i..i + n]) + Fixed(s[i + n..])
  {
    hide Step;
    assert s[i..][n..] == s[i + n..] && s[i..][..n] == s[i..i + n];
    assert before + (Written(s[i..]) + Fixed(s[i + n..])) == before + Written(s[i..]) + Fixed(s[i + n..]);
  }

  /** out stays unset until something is rewritten. */
  method FixSurrogates(s: seq<Byte>) returns (r: seq<Byte>)
    ensures r == Fixed(s)
  {
    hide Step, Fixed, Written;
    FixedNothing();
    assert s[0..] == s && s[..0] == [];
    var out: Option<seq<Byte>> := None;
    var i := 0;
    while i < |s|
      invariant i <= |s| && Fixed(s) == (if out.Some? then out.value else s[..i]) + Fixed(s[i..])
    {
      var n, lone := StepAt(s, i);
      FixedStep(s, i, n, lone, if out.Some? then out.value else s[..i]);
      if lone {
        out := Some((if out.Some? then out.value else s[..i]) + REPLACEMENT);
      } else if out.Some? {
        out := Some(out.value + s[i..i + n]);
      } else {
        assert s[..i] + s[i..i + n] == s[..i + n];
      }
      i := i + n;
    }
    assert s[..i] == s && s[i..] == [];
    assert (if out.Some? then out.value else s) + [] == Fixed(s);
    return if out.Some? then out.value else s;
  }

  // ----- what the repair leaves -----

  function Rewritten(): seq<Token> {
    [Raw([0xEF]), Raw([0xBF]), Raw([0xBD])]
  }

  /** The repair, token by token. */
  function FixedTokens(ts: seq<Token>): seq<Token> {
    if ts == [] then []
    else if Paired(ts) then ts[..2] + FixedTokens(ts[2..])
    else (if Lone(ts[0]) then Rewritten() else ts[..1]) + FixedTokens(ts[1..])
  }

  lemma RawAlone(b: seq<Byte>, rest: seq<Token>)
    ensures NoLone([Raw(b)] + rest) <==> NoLone(rest)
  {
    assert ([Raw(b)] + rest)[1..] == rest;
  }

  lemma RewrittenAlone(rest: seq<Token>)
    ensures NoLone(Rewritten() + rest) <==> NoLone(rest)
  {
    hide NoLone;
    RawAlone([0xBD], rest);
    RawAlone([0xBF], [Raw([0xBD])] + rest);
    RawAlone([0xEF], [Raw([0xBF])] + ([Raw([0xBD])] + rest));
    assert Rewritten() + rest == [Raw([0xEF])] + ([Raw([0xBF])] + ([Raw([0xBD])] + rest));
  }

  /** No lone surrogate is left, and where there was none nothing changes. */
  lemma {:induction false} FixedTokensClean(ts: seq<Token>)
    ensures NoLone(FixedTokens(ts)) && (NoLone(ts) ==> FixedTokens(ts) == ts)
    decreases |ts|
  {
    if ts != [] {
      if Paired(ts) {
        FixedTokensClean(ts[2..]);
        var out := ts[..2] + FixedTokens(ts[2..]);
        assert out[2..] == FixedTokens(ts[2..]);
        assert ts == ts[..2] + ts[2..];
      } else {
        FixedTokensClean(ts[1..]);
        if Lone(ts[0]) {
          RewrittenAlone(FixedTokens(ts[1..]));
        } else {
          var out := ts[..1] + FixedTokens(ts[1..]);
          assert out[1..] == FixedTokens(ts[1..]);
          assert ts == ts[..1] + ts[1..];
        }
      }
    }
  }

  lemma {:induction false} HexSame(s: seq<Byte>, t: seq<Byte>, n: nat)
    requires n <= |s| && n <= |t| && s[..n] == t[..n]
    ensures HexRead(s, n) == HexRead(t, n)
  {
    if n > 0 {
      assert s[..n - 1] == s[..n][..n - 1] && t[..n - 1] == t[..n][..n - 1];
      assert s[n - 1] == s[..n][n - 1] && t[n - 1] == t[..n][n - 1];
      HexSame(s, t, n - 1);
    }
  }

  /** An escape is read from its own six bytes. */
  lemma UnitSame(s: seq<Byte>, t: seq<Byte>)
    requires |s| >= 6 && |t| >= 6 && s[..6] == t[..6]
    ensures UnitAt(s) == UnitAt(t)
  {
    assert forall k | 0 <= k < 6 :: s[k] == s[..6][k] && t[k] == t[..6][k];
    assert s[2..][..4] == s[..6][2..] && t[2..][..4] == t[..6][2..];
    HexSame(s[2..], t[2..], 4);
  }

  lemma {:induction false} HexAll(s: seq<Byte>, n: nat)
    requires n <= |s|
    ensures HexRead(s, n).Some? <==> forall k | 0 <= k < n :: HexValue(s[k]).Some?
  {
    if n > 0 {
      HexAll(s, n - 1);
    }
  }

  /** The repair changes nothing before the first escape. */
  lemma {:induction false} FixedKeeps(s: seq<Byte>, k: nat)
    requires k <= |s| && forall j | 0 <= j < k :: s[j] != BACKSLASH
    ensures Fixed(s) == s[..k] + Fixed(s[k..])
  {
    hide Fixed;
    if k == 0 {
      assert s[0..] == s && s[..0] + Fixed(s) == Fixed(s);
    } else {
      FixedKeeps(s[1..], k - 1);
      FixedByte(s);
      assert s[1..][..k - 1] == s[1..k] && s[1..][k - 1..] == s[k..];
      assert s[..k] == s[..1] + s[1..k];
      assert s[..1] + (s[1..k] + Fixed(s[k..])) == s[..1] + s[1..k] + Fixed(s[k..]);
    }
  }

  lemma FixedByte(s: seq<Byte>)
    requires s != [] && s[0] != BACKSLASH
    ensures Fixed(s) == s[..1] + Fixed(s[1..])
  {}

  lemma FixedStart(s: seq<Byte>)
    requires s != [] && HexValue(s[0]) == None
    ensures Fixed(s) != [] && HexValue(Fixed(s)[0]) == None
  {}

  /** What follows no four hexadecimal digits still does after the repair. */
  lemma StillNoUnit(s: seq<Byte>)
    requires |s| >= 2 && s[0] == BACKSLASH && UnitAt(s) == None
    ensures UnitAt(s[..2] + Fixed(s[2..])) == None
  {
    var (t, out) := (s[2..], s[..2] + Fixed(s[2..]));
    assert out[2..] == Fixed(t);
    if s[1] == LETTER_U && |out| >= 6 {
      var k := HexRun(t, if |t| < 4 then |t| else 4);
      FixedKeeps(t, k);
      if |t| >= 4 {
        HexAll(t, 4);
      }
      if k < |t| {
        FixedStart(t[k..]);
        assert Fixed(t)[k] == Fixed(t[k..])[0];
        HexAll(Fixed(t), 4);
      }
    }
  }

  /** How many hexadecimal digits s opens with, of the first n. */
  lemma {:induction false} HexRun(s: seq<Byte>, n: nat) returns (k: nat)
    requires n <= |s|
    ensures k <= n && (forall j | 0 <= j < k :: HexValue(s[j]).Some?) && (k < n ==> HexValue(s[k]) == None)
  {
    k := 0;
    while k < n && HexValue(s[k]).Some?
      invariant k <= n && forall j | 0 <= j < k :: HexValue(s[j]).Some?
    {
      k := k + 1;
    }
  }

  /** The repair, byte by byte, is the repair token by token. */
  lemma {:induction false} FixedIsTokens(s: seq<Byte>)
    ensures Fixed(s) == Joined(FixedTokens(Tokens(s)))
    decreases |s|
  {
    if s != [] {
      hide Fixed, UnitAt;
      var (n, lone) := Step(s);
      FixedIsTokens(s[n..]);
      StepTokens(s);
      FixedFirst(s);
      JoinedConcat(if lone then Rewritten() else Tokens(s)[..if n == 12 then 2 else 1], FixedTokens(Tokens(s[n..])));
    } else {
      assert FixedTokens(Tokens(s)) == [];
    }
  }

  lemma FixedFirst(s: seq<Byte>)
    requires s != []
    ensures Fixed(s) == (if Step(s).1 then REPLACEMENT else s[..Step(s).0]) + Fixed(s[Step(s).0..])
  {}

  lemma {:induction false} JoinedConcat(a: seq<Token>, b: seq<Token>)
    ensures Joined(a + b) == Joined(a) + Joined(b)
  {
    if a == [] {
      assert a + b == b;
    } else {
      assert (a + b)[1..] == a[1..] + b;
      JoinedConcat(a[1..], b);
    }
  }

  lemma JoinedOne(t: Token)
    ensures Joined([t]) == t.text
  {
    assert [t][1..] == [] && t.text + [] == t.text;
  }

  lemma TwoTokens(s: seq<Byte>)
    requires s != [] && Step(s).0 == 12
    ensures var (t, u) := (FirstToken(s), FirstToken(s[6..]));
            && Tokens(s) == [t, u] + Tokens(s[12..]) && Joined([t, u]) == s[..12]
            && Paired(Tokens(s)) && [t, u] == Tokens(s)[..2] && Tokens(s)[2..] == Tokens(s[12..])
  {
    hide UnitAt;
    var (t, u) := (FirstToken(s), FirstToken(s[6..]));
    assert Tokens(s) == [t] + Tokens(s[6..]);
    assert Tokens(s[6..]) == [u] + Tokens(s[6..][6..]);
    assert s[6..][6..] == s[12..] && s[..12] == s[..6] + s[6..][..6];
    assert Tokens(s) == [t, u] + Tokens(s[12..]);
    JoinedConcat([t], [u]);
    JoinedOne(t);
    JoinedOne(u);
    assert [t, u] == [t] + [u];
  }

  /** One step reads one token, or the two of a pair. */
  lemma StepTokens(s: seq<Byte>)
    requires s != []
    ensures var (n, lone) := Step(s);
            var (ts, rest) := (Tokens(s), Tokens(s[n..]));
            && (n == 12 ==> Paired(ts) && ts[2..] == rest && |ts| >= 2)
            && (n != 12 ==> !Paired(ts) && ts[1..] == rest && Lone(ts[0]) == lone)
            && (lone ==> n != 12)
            && Joined(ts[..if n == 12 then 2 else 1]) == s[..n]
            && FixedTokens(ts) == (if lone then Rewritten() else ts[..if n == 12 then 2 else 1]) + FixedTokens(rest)
  {
    hide UnitAt;
    var (n, lone) := Step(s);
    var t := FirstToken(s);
    assert Tokens(s) == [t] + Tokens(s[|t.text|..]);
    if n == 12 {
      TwoTokens(s);
    } else {
      assert Tokens(s)[1..] == Tokens(s[n..]);
      JoinedOne(t);
      if t.Code? && |s| > 6 {
        assert Tokens(s)[1] == FirstToken(s[6..]);
      }
    }
  }

  /** The tokens of the repaired string are the repaired tokens. */
  lemma {:induction false} TokensOfFixed(s: seq<Byte>)
    ensures Tokens(Fixed(s)) == FixedTokens(Tokens(s))
    decreases |s|
  {
    if s != [] {
      hide Fixed, UnitAt;
      var (n, lone) := Step(s);
      TokensOfFixed(s[n..]);
      StepTokens(s);
      FixedFirst(s);
      if lone {
        RewrittenTokens(Fixed(s[n..]));
      } else if n == 12 {
        PairTokens(s, Fixed(s[12..]));
      } else {
        OneToken(s, n);
      }
    }
  }

  lemma RewrittenTokens(rest: seq<Byte>)
    ensures Tokens(REPLACEMENT + rest) == Rewritten() + Tokens(rest)
  {
    hide Tokens;
    ByteToken(0xBD, rest);
    ByteToken(0xBF, [0xBD] + rest);
    ByteToken(0xEF, [0xBF] + ([0xBD] + rest));
    assert REPLACEMENT + rest == [0xEF] + ([0xBF] + ([0xBD] + rest));
  }

  lemma ByteToken(b: Byte, rest: seq<Byte>)
    requires b != BACKSLASH
    ensures Tokens([b] + rest) == [Raw([b])] + Tokens(rest)
  {
    assert ([b] + rest)[1..] == rest && ([b] + rest)[..1] == [b];
  }

  lemma CodeToken(s: seq<Byte>, rest: seq<Byte>)
    requires |s| >= 6 && UnitAt(s).Some?
    ensures Tokens(s[..6] + rest) == [FirstToken(s)] + Tokens(rest)
  {
    var out := s[..6] + rest;
    assert out[..6] == s[..6] && out[6..] == rest;
    UnitSame(s, out);
    hide UnitAt;
    assert FirstToken(out) == FirstToken(s);
  }

  lemma PairTokens(s: seq<Byte>, rest: seq<Byte>)
    requires s != [] && Step(s).0 == 12
    ensures |Tokens(s)| >= 2 && Tokens(s[..12] + rest) == Tokens(s)[..2] + Tokens(rest)
  {
    hide UnitAt, Tokens, FirstToken, Joined, FixedTokens;
    var (a, b) := (s[..6], s[6..][..6]);
    assert UnitAt(s).Some? && UnitAt(s[6..]).Some?;
    CodeToken(s[6..], rest);
    CodeToken(s, b + rest);
    assert s[..12] + rest == a + (b + rest);
    CodeToken(s[6..], s[12..]);
    CodeToken(s, b + s[12..]);
    assert s == a + (b + s[12..]) by {
      assert s[6..][6..] == s[12..];
    }
  }

  lemma OneToken(s: seq<Byte>, n: nat)
    requires s != [] && Step(s) == (n, false) && n != 12
    ensures Tokens(s[..n] + Fixed(s[n..])) == Tokens(s)[..1] + Tokens(Fixed(s[n..]))
  {
    var rest := Fixed(s[n..]);
    assert Tokens(s)[..1] == [FirstToken(s)];
    if s[0] != BACKSLASH {
      ByteToken(s[0], rest);
      assert s[..1] == [s[0]];
    } else if UnitAt(s).Some? {
      CodeToken(s, rest);
    } else {
      var out := s[..n] + rest;
      if n == 2 {
        StillNoUnit(s);
      } else {
        assert rest == [];
      }
      hide UnitAt, Fixed;
      assert out[n..] == rest && out[..n] == s[..n];
    }
  }

  /** What the repair writes holds no lone surrogate escape; a string that held
      none comes back as it was, pairs and other escapes included; and
      repairing twice is repairing once. */
  lemma FixedIsClean(s: seq<Byte>)
    ensures NoLone(Tokens(Fixed(s)))
    ensures Fixed(s) == s <==> NoLone(Tokens(s))
    ensures Fixed(Fixed(s)) == Fixed(s)
  {
    hide Fixed, Tokens;
    TokensOfFixed(s);
    FixedTokensClean(Tokens(s));
    FixedTokensClean(Tokens(Fixed(s)));
    FixedIsTokens(s);
    FixedIsTokens(Fixed(s));
    TokensJoin(s);
    TokensJoin(Fixed(s));
  }

  method HasLoneSurrogate(s: seq<Byte>) returns (lone: bool)
    ensures lone <==> !NoLone(Tokens(s))
  {
    var repaired := FixSurrogates(s);
    FixedIsClean(s);
    return repaired != s;
  }
}
