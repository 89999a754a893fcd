/** Slicing the bytes of a canonical object into its members, where the entry
    hashes would otherwise decode it and encode it again. A character stands
    for its bytes: none of a character beyond ASCII is one the slicer reads. */
module Slicer {
  import opened Entries

  type Bytes = string

  // ----- values and their canonical form (section 3.2 of RFC 8785) -----

  datatype Doc = Text(s: string) | Scalar(text: Bytes) | List(items: seq<Doc>) | Object(members: seq<Member>)

  datatype Member = Member(key: string, value: Doc)

  function Hex(n: nat): char
    requires n < 16
  {
    "0123456789abcdef"[n]
  }

  /** How a string spells one character. */
  function Spelled(c: char): Bytes {
    if c == '\"' then "\\\""
    else if c == '\\' then "\\\\"
    else if c == '\n' then "\\n"
    else if c == '\r' then "\\r"
    else if c == '\t' then "\\t"
    else if c as int == 8 then "\\b"
    else if c as int == 12 then "\\f"
    else if c as int < 32 then "\\u00" + [Hex(c as int / 16), Hex(c as int % 16)]
    else [c]
  }

  function SpelledAll(s: string): Bytes {
    if s == "" then "" else Spelled(s[0]) + SpelledAll(s[1..])
  }

  function Quoted(s: string): Bytes {
    "\"" + SpelledAll(s) + "\""
  }

  function Encode(d: Doc): Bytes {
    match d
    case Text(s) => Quoted(s)
    case Scalar(text) => text
    case List(items) => "[" + EncodeItems(items) + "]"
    case Object(ms) => "{" + EncodeMembers(ms) + "}"
  }

  function EncodeItems(items: seq<Doc>): Bytes {
    if items == [] then "" else Encode(items[0]) + Comma(items[1..] != []) + EncodeItems(items[1..])
  }

  function EncodeMember(m: Member): Bytes {
    Quoted(m.key) + ":" + Encode(m.value)
  }

  function EncodeMembers(ms: seq<Member>): Bytes {
    if ms == [] then "" else EncodeMember(ms[0]) + Comma(ms[1..] != []) + EncodeMembers(ms[1..])
  }

  function Comma(more: bool): Bytes {
    if more then "," else ""
  }

  predicate Structural(c: char) {
    c == '\"' || c == '{' || c == '[' || c == ':' || Closes(c)
  }

  /** What may follow a value. */
  predicate Closes(c: char) {
    c == ',' || c == '}' || c == ']'
  }

  /** A number, true, false or null: no structural character in it. */
  predicate WellFormed(d: Doc) {
    match d
    case Text(_) => true
    case Scalar(text) => text != "" && forall c | c in text :: !Structural(c)
    case List(items) => forall x | x in items :: WellFormed(x)
    case Object(ms) => forall m | m in ms :: WellFormed(m.value)
  }

  // ----- skipping -----

  /** Past the string whose text goes on at j, or -1. */
  function StringEnd(c: Bytes, j: nat): (end: int)
    ensures end == -1 || j < end <= |c|
    decreases |c| - j
  {
    if j >= |c| then -1
    else if c[j] == '\\' then StringEnd(c, j + 2)
    else if c[j] == '\"' then j + 1
    else StringEnd(c, j + 1)
  }

  method SkipString(c: Bytes, i: nat) returns (end: int)
    ensures end == StringEnd(c, i + 1)
  {
    var j := i + 1;
    while j < |c|
      invariant StringEnd(c, i + 1) == StringEnd(c, j)
    {
      if c[j] == '\\' {
        j := j + 1;
      } else if c[j] == '\"' {
        return j + 1;
      }
      j := j + 1;
    }
    return -1;
  }

  /** Past the container open at depth, from j on, or -1. */
  function ContainerEnd(c: Bytes, j: nat, depth: nat): (end: int)
    ensures end == -1 || j < end <= |c|
    decreases |c| - j
  {
    if j >= |c| then -1
    else if c[j] == '\"' then
      var k := StringEnd(c, j + 1);
      if k < 0 then -1 else ContainerEnd(c, k, depth)
    else if c[j] == '{' || c[j] == '[' then ContainerEnd(c, j + 1, depth + 1)
    else if c[j] == '}' || c[j] == ']' then
      if depth <= 1 then j + 1 else ContainerEnd(c, j + 1, depth - 1)
    else ContainerEnd(c, j + 1, depth)
  }

  function ScalarEnd(c: Bytes, j: nat): (end: nat)
    requires j <= |c|
    ensures j <= end <= |c|
    decreases |c| - j
  {
    if j == |c| || Closes(c[j]) then j else ScalarEnd(c, j + 1)
  }

  function ValueEnd(c: Bytes, i: nat): (end: int)
    ensures end == -1 || i <= end <= |c|
  {
    if i >= |c| then -1
    else if c[i] == '\"' then StringEnd(c, i + 1)
    else if c[i] == '{' || c[i] == '[' then ContainerEnd(c, i, 0)
    else ScalarEnd(c, i)
  }

  method SkipValue(c: Bytes, i: nat) returns (end: int)
    ensures end == ValueEnd(c, i)
  {
    if i >= |c| {
      return -1;
    }
    if c[i] == '\"' {
      end := SkipString(c, i);
      return;
    }
    if c[i] == '{' || c[i] == '[' {
      var depth: nat, j := 0, i;
      while j < |c|
        invariant i <= j && (j == i || depth > 0)
        invariant ContainerEnd(c, i, 0) == ContainerEnd(c, j, depth)
        decreases |c| - j
      {
        if c[j] == '\"' {
          var k := SkipString(c, j);
          if k < 0 {
            return -1;
          }
          j := k - 1;
        } else if c[j] == '{' || c[j] == '[' {
          depth := depth + 1;
        } else if c[j] == '}' || c[j] == ']' {
          depth := depth - 1;
          if depth == 0 {
            return j + 1;
          }
        }
        j := j + 1;
      }
      return -1;
    }
    var j := i;
    while j < |c| && c[j] != ',' && c[j] != '}' && c[j] != ']'
      invariant i <= j <= |c| && ScalarEnd(c, i) == ScalarEnd(c, j)
    {
      j := j + 1;
    }
    return j;
  }

  // ----- skipping a value skips the whole value -----

  /** t stands in c at p. */
  predicate Here(c: Bytes, p: nat, t: Bytes) {
    p + |t| <= |c| && c[p..p + |t|] == t
  }

  lemma HereParts(c: Bytes, p: nat, a: Bytes, b: Bytes)
    requires Here(c, p, a + b)
    ensures Here(c, p, a) && Here(c, p + |a|, b)
  {
    assert c[p..p + |a|] == (a + b)[..|a|] == a;
    assert c[p + |a|..p + |a| + |b|] == (a + b)[|a|..] == b;
  }

  lemma HereAt(c: Bytes, p: nat, t: Bytes)
    requires Here(c, p, t)
    ensures p + |t| <= |c| && forall k | 0 <= k < |t| :: c[p + k] == t[k]
  {
    forall k | 0 <= k < |t| ensures c[p + k] == t[k] {
      assert c[p..p + |t|][k] == t[k];
    }
  }

  lemma {:induction false} SkipsText(c: Bytes, p: nat, s: string)
    requires Here(c, p, SpelledAll(s) + "\"")
    ensures StringEnd(c, p) == p + |SpelledAll(s)| + 1
    decreases |s|
  {
    hide Here, Spelled;
    if s == "" {
      assert SpelledAll(s) + "\"" == "\"";
      HereAt(c, p, "\"");
      assert "\""[0] == '\"';
    } else {
      var (one, rest) := (Spelled(s[0]), SpelledAll(s[1..]) + "\"");
      assert SpelledAll(s) + "\"" == one + rest;
      HereParts(c, p, one, rest);
      SkipsOne(c, p, s[0]);
      SkipsText(c, p + |one|, s[1..]);
    }
  }

  lemma SkipsOne(c: Bytes, p: nat, x: char)
    requires Here(c, p, Spelled(x))
    ensures StringEnd(c, p) == StringEnd(c, p + |Spelled(x)|)
  {
    var t := Spelled(x);
    HereAt(c, p, t);
    SpelledShape(x);
    if |t| == 6 {
      assert c[p + 0] == t[0];
      assert c[p + 2] == t[2] && c[p + 3] == t[3] && c[p + 4] == t[4] && c[p + 5] == t[5];
      hide Spelled, Here;
      PlainEnd(c, p + 2);
      PlainEnd(c, p + 3);
      PlainEnd(c, p + 4);
      PlainEnd(c, p + 5);
    } else {
      assert c[p + 0] == t[0];
    }
  }

  /** One plain character, an escape of one, or one of a code unit. */
  lemma SpelledShape(x: char)
    ensures var t := Spelled(x);
            && |t| in {1, 2, 6}
            && (|t| == 1 ==> t[0] != '\"' && t[0] != '\\')
            && (|t| > 1 ==> t[0] == '\\')
            && (|t| == 6 ==> forall k | 2 <= k < 6 :: t[k] != '\"' && t[k] != '\\')
  {}

  lemma PlainEnd(c: Bytes, j: nat)
    requires j < |c| && c[j] != '\"' && c[j] != '\\'
    ensures StringEnd(c, j) == StringEnd(c, j + 1)
  {}

  lemma SkipsQuoted(c: Bytes, p: nat, s: string)
    requires Here(c, p, Quoted(s))
    ensures p < |c| && c[p] == '\"' && StringEnd(c, p + 1) == p + |Quoted(s)|
  {
    hide SpelledAll;
    assert Quoted(s) == "\"" + (SpelledAll(s) + "\"");
    HereParts(c, p, "\"", SpelledAll(s) + "\"");
    HereAt(c, p, "\"");
    SkipsText(c, p + 1, s);
  }

  lemma {:induction false} ScansScalar(c: Bytes, p: nat, t: Bytes, depth: nat)
    requires Here(c, p, t) && forall x | x in t :: !Structural(x)
    ensures ContainerEnd(c, p, depth) == ContainerEnd(c, p + |t|, depth)
    decreases |t|
  {
    if t != "" {
      HereAt(c, p, t);
      assert t == [t[0]] + t[1..];
      HereParts(c, p, [t[0]], t[1..]);
      assert t[0] in t;
      ScansScalar(c, p + 1, t[1..], depth);
    }
  }

  /** Inside a container, a value is passed at the depth it stands at. */
  lemma {:induction false} ScansDoc(c: Bytes, p: nat, d: Doc, depth: nat)
    requires WellFormed(d) && Here(c, p, Encode(d)) && depth > 0
    ensures ContainerEnd(c, p, depth) == ContainerEnd(c, p + |Encode(d)|, depth)
    decreases d
  {
    hide Here, EncodeItems, EncodeMembers, Quoted;
    match d
    case Text(s) => SkipsQuoted(c, p, s);
    case Scalar(t) => ScansScalar(c, p, t, depth);
    case List(items) =>
      var inner := EncodeItems(items);
      Brackets(c, p, "[", inner, "]");
      ScansItems(c, p + 1, items, depth + 1);
    case Object(ms) =>
      var inner := EncodeMembers(ms);
      Brackets(c, p, "{", inner, "}");
      ScansMembers(c, p + 1, ms, depth + 1);
  }

  lemma Brackets(c: Bytes, p: nat, open: Bytes, inner: Bytes, close: Bytes)
    requires |open| == |close| == 1 && Here(c, p, open + inner + close)
    ensures Here(c, p + 1, inner) && p + 1 + |inner| < |c|
    ensures c[p] == open[0] && c[p + 1 + |inner|] == close[0]
  {
    assert open + inner + close == open + (inner + close);
    HereParts(c, p, open, inner + close);
    HereParts(c, p + 1, inner, close);
    HereAt(c, p, open);
    HereAt(c, p + 1 + |inner|, close);
  }

  lemma ScansComma(c: Bytes, p: nat, more: bool, depth: nat)
    requires Here(c, p, Comma(more))
    ensures ContainerEnd(c, p, depth) == ContainerEnd(c, p + |Comma(more)|, depth)
  {
    HereAt(c, p, Comma(more));
  }

  lemma {:induction false} ScansItems(c: Bytes, p: nat, items: seq<Doc>, depth: nat)
    requires (forall x | x in items :: WellFormed(x)) && Here(c, p, EncodeItems(items)) && depth > 0
    ensures ContainerEnd(c, p, depth) == ContainerEnd(c, p + |EncodeItems(items)|, depth)
    decreases items
  {
    hide Here, Encode, WellFormed, ContainerEnd;
    if items == [] {
      assert |EncodeItems(items)| == 0;
    } else {
      var more := items[1..] != [];
      var (one, comma, rest) := (Encode(items[0]), Comma(more), EncodeItems(items[1..]));
      assert EncodeItems(items) == (one + comma) + rest;
      assert p + |EncodeItems(items)| == p + |one| + |comma| + |rest|;
      hide EncodeItems, Comma;
      HereParts(c, p, one + comma, rest);
      HereParts(c, p, one, comma);
      ScansDoc(c, p, items[0], depth);
      ScansComma(c, p + |one|, more, depth);
      ScansItems(c, p + |one| + |comma|, items[1..], depth);
    }
  }

  lemma {:induction false} ScansMember(c: Bytes, p: nat, m: Member, depth: nat)
    requires WellFormed(m.value) && Here(c, p, EncodeMember(m)) && depth > 0
    ensures ContainerEnd(c, p, depth) == ContainerEnd(c, p + |EncodeMember(m)|, depth)
    decreases m
  {
    hide Here, Encode, Quoted;
    var (key, value) := (Quoted(m.key), Encode(m.value));
    HereParts(c, p, key + ":", value);
    HereParts(c, p, key, ":");
    SkipsQuoted(c, p, m.key);
    HereAt(c, p + |key|, ":");
    ScansDoc(c, p + |key| + 1, m.value, depth);
  }

  lemma {:induction false} ScansMembers(c: Bytes, p: nat, ms: seq<Member>, depth: nat)
    requires (forall m | m in ms :: WellFormed(m.value)) && Here(c, p, EncodeMembers(ms)) && depth > 0
    ensures ContainerEnd(c, p, depth) == ContainerEnd(c, p + |EncodeMembers(ms)|, depth)
    decreases ms
  {
    hide Here, EncodeMember, WellFormed, ContainerEnd;
    if ms == [] {
      assert |EncodeMembers(ms)| == 0;
    } else {
      var more := ms[1..] != [];
      var (one, comma, rest) := (EncodeMember(ms[0]), Comma(more), EncodeMembers(ms[1..]));
      assert EncodeMembers(ms) == (one + comma) + rest;
      assert p + |EncodeMembers(ms)| == p + |one| + |comma| + |rest|;
      hide EncodeMembers, Comma;
      HereParts(c, p, one + comma, rest);
      HereParts(c, p, one, comma);
      ScansMember(c, p, ms[0], depth);
      ScansComma(c, p + |one|, more, depth);
      ScansMembers(c, p + |one| + |comma|, ms[1..], depth);
    }
  }

  lemma {:induction false} ScalarStops(c: Bytes, p: nat, t: Bytes)
    requires Here(c, p, t) && (forall x | x in t :: !Structural(x))
    requires p + |t| < |c| ==> Closes(c[p + |t|])
    ensures ScalarEnd(c, p) == p + |t|
    decreases |t|
  {
    if t != "" {
      HereAt(c, p, t);
      assert t == [t[0]] + t[1..];
      HereParts(c, p, [t[0]], t[1..]);
      assert t[0] in t;
      ScalarStops(c, p + 1, t[1..]);
    }
  }

  /** A value that a comma or a closing bracket follows is skipped whole. */
  lemma SkipsDoc(c: Bytes, p: nat, d: Doc)
    requires WellFormed(d) && Here(c, p, Encode(d))
    requires p + |Encode(d)| < |c| ==> Closes(c[p + |Encode(d)|])
    ensures ValueEnd(c, p) == p + |Encode(d)|
  {
    hide Here, EncodeItems, EncodeMembers, Quoted;
    match d
    case Text(s) => SkipsQuoted(c, p, s);
    case Scalar(t) =>
      HereAt(c, p, t);
      assert t[0] in t;
      ScalarStops(c, p, t);
    case List(items) =>
      Brackets(c, p, "[", EncodeItems(items), "]");
      ScansItems(c, p + 1, items, 1);
    case Object(ms) =>
      Brackets(c, p, "{", EncodeMembers(ms), "}");
      ScansMembers(c, p + 1, ms, 1);
  }

  // ----- slicing an object into its members -----

  datatype Slice = Slice(key: string, raw: Bytes, val: Bytes)

  /** A key with no escape is its own text; another is decoded. */
  function KeyOf(quoted: Bytes, unquote: Bytes -> Option<string>): Option<string>
    requires |quoted| >= 2
  {
    if '\\' in quoted then unquote(quoted) else Some(quoted[1..|quoted| - 1])
  }

  function After(out: seq<Slice>, rest: Option<seq<Slice>>): Option<seq<Slice>> {
    match rest case None => None case Some(r) => Some(out + r)
  }

  /** The member that starts at i, and where it ends. */
  function MemberAt(c: Bytes, i: nat, unquote: Bytes -> Option<string>): (m: Option<(Slice, nat)>)
    ensures m.Some? ==> i < m.value.1 < |c|
  {
    if i >= |c| || c[i] != '\"' then None
    else
      var keyEnd := StringEnd(c, i + 1);
      if keyEnd < 0 || keyEnd >= |c| || c[keyEnd] != ':' then None
      else
        match KeyOf(c[i..keyEnd], unquote)
        case None => None
        case Some(key) =>
          var end := ValueEnd(c, keyEnd + 1);
          if end < 0 || end >= |c| then None else Some((Slice(key, c[i..end], c[keyEnd + 1..end]), end))
  }

  function MembersFrom(c: Bytes, i: nat, unquote: Bytes -> Option<string>): Option<seq<Slice>>
    decreases |c| - i
  {
    match MemberAt(c, i, unquote)
    case None => None
    case Some((one, end)) =>
      if c[end] == ',' then After([one], MembersFrom(c, end + 1, unquote))
      else if c[end] == '}' && end == |c| - 1 then Some([one])
      else None
  }

  function Members(c: Bytes, unquote: Bytes -> Option<string>): Option<seq<Slice>> {
    if |c| < 2 || c[0] != '{' || c[|c| - 1] != '}' then None
    else if c[1] == '}' then if |c| == 2 then Some([]) else None
    else MembersFrom(c, 1, unquote)
  }

  lemma AfterNone(rest: Option<seq<Slice>>)
    ensures After([], rest) == rest
    ensures forall out :: After(out, None) == None
  {
    if rest.Some? {
      assert [] + rest.value == rest.value;
    }
  }

  lemma AfterSnoc(out: seq<Slice>, one: Slice, rest: Option<seq<Slice>>)
    ensures After(out, After([one], rest)) == After(out + [one], rest)
    ensures After(out, Some([one])) == Some(out + [one])
  {
    if rest.Some? {
      assert out + ([one] + rest.value) == out + [one] + rest.value;
    }
  }

  lemma MembersStep(c: Bytes, i: nat, unquote: Bytes -> Option<string>, out: seq<Slice>)
    ensures var at := MemberAt(c, i, unquote);
            After(out, MembersFrom(c, i, unquote))
            == if at == None then None
               else
                 var (one, end) := at.value;
                 if c[end] == ',' then After(out + [one], MembersFrom(c, end + 1, unquote))
                 else if c[end] == '}' && end == |c| - 1 then Some(out + [one])
                 else None
  {
    hide MemberAt, After;
    AfterNone(None);
    if MemberAt(c, i, unquote).Some? {
      var (one, end) := MemberAt(c, i, unquote).value;
      AfterSnoc(out, one, MembersFrom(c, end + 1, unquote));
    }
  }

  method CanonicalMembers(c: Bytes, unquote: Bytes -> Option<string>) returns (out: Option<seq<Slice>>)
    ensures out == Members(c, unquote)
  {
    hide StringEnd, ValueEnd, KeyOf, After, MembersFrom;
    if |c| < 2 || c[0] != '{' || c[|c| - 1] != '}' {
      return None;
    }
    var members, i := [], 1;
    if c[1] == '}' {
      return if i == |c| - 1 then Some([]) else None;
    }
    AfterNone(MembersFrom(c, 1, unquote));
    while true
      invariant 1 <= i && MembersFrom(c, 1, unquote) == After(members, MembersFrom(c, i, unquote))
      decreases |c| - i
    {
      MembersStep(c, i, unquote, members);
      if i >= |c| || c[i] != '\"' {
        return None;
      }
      var keyEnd := SkipString(c, i);
      if keyEnd < 0 || keyEnd >= |c| || c[keyEnd] != ':' {
        return None;
      }
      var key := KeyOf(c[i..keyEnd], unquote);
      if key == None {
        return None;
      }
      var v := keyEnd + 1;
      var end := SkipValue(c, v);
      if end < 0 || end >= |c| {
        return None;
      }
      members := members + [Slice(key.value, c[i..end], c[v..end])];
      if c[end] == ',' {
        i := end + 1;
      } else if c[end] == '}' {
        return if end == |c| - 1 then Some(members) else None;
      } else {
        return None;
      }
    }
  }

  function JoinRaw(ms: seq<Slice>): Bytes {
    if ms == [] then "" else ms[0].raw + Comma(ms[1..] != []) + JoinRaw(ms[1..])
  }

  lemma {:induction false} SlicesJoinFrom(c: Bytes, i: nat, unquote: Bytes -> Option<string>)
    requires MembersFrom(c, i, unquote).Some?
    ensures i <= |c| && MembersFrom(c, i, unquote).value != []
    ensures c[i..] == JoinRaw(MembersFrom(c, i, unquote).value) + "}"
    decreases |c| - i
  {
    hide StringEnd, ValueEnd, KeyOf, JoinRaw;
    var out := MembersFrom(c, i, unquote).value;
    var end := ValueEnd(c, StringEnd(c, i + 1) + 1);
    if c[end] == ',' {
      SlicesJoinFrom(c, end + 1, unquote);
      var rest := MembersFrom(c, end + 1, unquote).value;
      assert out == [out[0]] + rest;
      JoinFirst(out[0], rest);
      CutAt(c, i, end);
      assert c[i..] == c[i..end] + "," + (JoinRaw(rest) + "}") == c[i..end] + "," + JoinRaw(rest) + "}";
    } else {
      JoinOne(out[0]);
      CutAt(c, i, end);
      assert c[end + 1..] == "";
      assert c[i..] == c[i..end] + "}";
    }
  }

  lemma CutAt(c: Bytes, i: nat, end: nat)
    requires i <= end < |c|
    ensures c[i..] == c[i..end] + [c[end]] + c[end + 1..]
  {}

  lemma JoinFirst(one: Slice, rest: seq<Slice>)
    requires rest != []
    ensures JoinRaw([one] + rest) == one.raw + "," + JoinRaw(rest)
  {
    assert ([one] + rest)[1..] == rest;
  }

  lemma JoinOne(one: Slice)
    ensures JoinRaw([one]) == one.raw
  {
    assert [one][1..] == [];
    assert JoinRaw([]) == "";
  }

  /** Whatever is sliced, the slices joined are the bytes. */
  lemma SlicesJoin(c: Bytes, unquote: Bytes -> Option<string>)
    requires Members(c, unquote).Some?
    ensures c == "{" + JoinRaw(Members(c, unquote).value) + "}"
  {
    if c[1] != '}' {
      SlicesJoinFrom(c, 1, unquote);
      assert c == "{" + c[1..];
    }
  }

  // ----- every object is sliced into exactly its members -----

  function SliceOf(m: Member): Slice {
    Slice(m.key, EncodeMember(m), Encode(m.value))
  }

  function SlicesOf(ms: seq<Member>): seq<Slice> {
    if ms == [] then [] else [SliceOf(ms[0])] + SlicesOf(ms[1..])
  }

  /** The decoder reads back a quoted string. */
  ghost predicate Decodes(unquote: Bytes -> Option<string>) {
    forall s :: unquote(Quoted(s)) == Some(s)
  }

  lemma {:induction false} PlainText(s: string)
    requires '\\' !in SpelledAll(s)
    ensures SpelledAll(s) == s
  {
    if s != "" {
      assert forall c | c in SpelledAll(s[1..]) :: c in SpelledAll(s);
      assert Spelled(s[0])[0] in SpelledAll(s);
      PlainText(s[1..]);
    }
  }

  lemma KeyDecoded(s: string, unquote: Bytes -> Option<string>)
    requires Decodes(unquote)
    ensures |Quoted(s)| >= 2 && KeyOf(Quoted(s), unquote) == Some(s)
  {
    var q := Quoted(s);
    assert q[1..|q| - 1] == SpelledAll(s);
    if '\\' !in q {
      assert forall c | c in SpelledAll(s) :: c in q;
      PlainText(s);
    }
  }

  lemma OneMember(c: Bytes, i: nat, keyEnd: nat, end: nat, key: string, unquote: Bytes -> Option<string>)
    requires i + 2 <= keyEnd < end < |c| && c[i] == '\"' && c[keyEnd] == ':'
    requires StringEnd(c, i + 1) == keyEnd && ValueEnd(c, keyEnd + 1) == end
    requires KeyOf(c[i..keyEnd], unquote) == Some(key)
    ensures var one := [Slice(key, c[i..end], c[keyEnd + 1..end])];
            && (c[end] == ',' ==> MembersFrom(c, i, unquote) == After(one, MembersFrom(c, end + 1, unquote)))
            && (c[end] == '}' && end == |c| - 1 ==> MembersFrom(c, i, unquote) == Some(one))
  {
    hide StringEnd, ValueEnd, KeyOf, After;
  }

  /** One member, with what follows it. */
  lemma MemberExact(c: Bytes, p: nat, m: Member, tail: Bytes, unquote: Bytes -> Option<string>)
    requires Decodes(unquote) && WellFormed(m.value)
    requires Here(c, p, EncodeMember(m) + tail) && tail != "" && Closes(tail[0])
    ensures var end := p + |EncodeMember(m)|;
            && end < |c| && c[end] == tail[0] && Here(c, end, tail)
            && (tail[0] == ',' ==> MembersFrom(c, p, unquote) == After([SliceOf(m)], MembersFrom(c, end + 1, unquote)))
            && (tail[0] == '}' && end == |c| - 1 ==> MembersFrom(c, p, unquote) == Some([SliceOf(m)]))
  {
    hide Here, Encode, Quoted, KeyOf, StringEnd, ValueEnd, Decodes, WellFormed, MembersFrom, After;
    var (key, value, one) := (Quoted(m.key), Encode(m.value), EncodeMember(m));
    HereParts(c, p, one, tail);
    HereParts(c, p, key + ":", value);
    HereParts(c, p, key, ":");
    SkipsQuoted(c, p, m.key);
    HereAt(c, p + |key|, ":");
    assert c[p + |key|] == ":"[0];
    HereAt(c, p + |one|, tail);
    assert c[p + |one| + 0] == tail[0];
    assert p + |key| + 1 + |value| == p + |one|;
    SkipsDoc(c, p + |key| + 1, m.value);
    KeyDecoded(m.key, unquote);
    HereIs(c, p, key);
    HereIs(c, p, one);
    HereIs(c, p + |key| + 1, value);
    OneMember(c, p, p + |key|, p + |one|, m.key, unquote);
  }

  lemma {:induction false} SlicesExactFrom(c: Bytes, p: nat, ms: seq<Member>, unquote: Bytes -> Option<string>)
    requires Decodes(unquote) && ms != [] && forall m | m in ms :: WellFormed(m.value)
    requires Here(c, p, EncodeMembers(ms) + "}") && p + |EncodeMembers(ms)| + 1 == |c|
    ensures MembersFrom(c, p, unquote) == Some(SlicesOf(ms))
    decreases |ms|
  {
    hide Here, EncodeMember, EncodeMembers, Decodes, WellFormed, MembersFrom, SliceOf;
    var (one, rest) := (EncodeMember(ms[0]), ms[1..]);
    var tail := Comma(rest != []) + EncodeMembers(rest) + "}";
    EncodeFirst(ms);
    EncodeNone();
    assert EncodeMembers(ms) + "}" == one + tail;
    assert tail[0] == if rest != [] then ',' else '}';
    assert |EncodeMembers(ms)| + 1 == |one| + |tail|;
    MemberExact(c, p, ms[0], tail, unquote);
    if rest != [] {
      assert tail == "," + (EncodeMembers(rest) + "}");
      HereParts(c, p + |one|, ",", EncodeMembers(rest) + "}");
      SlicesExactFrom(c, p + |one| + 1, rest, unquote);
    } else {
      assert tail == "}" && p + |one| == |c| - 1;
      assert tail[0] == '}';
      assert MembersFrom(c, p, unquote) == Some([SliceOf(ms[0])]);
      assert SlicesOf(rest) == [];
      assert SlicesOf(ms) == [SliceOf(ms[0])] + SlicesOf(rest);
      assert SlicesOf(ms) == [SliceOf(ms[0])];
    }
  }

  lemma HereIs(c: Bytes, p: nat, t: Bytes)
    requires Here(c, p, t)
    ensures p + |t| <= |c| && c[p..p + |t|] == t
  {}

  lemma EncodeFirst(ms: seq<Member>)
    requires ms != []
    ensures EncodeMembers(ms) == EncodeMember(ms[0]) + Comma(ms[1..] != []) + EncodeMembers(ms[1..])
  {}

  lemma EncodeNone()
    ensures EncodeMembers([]) == ""
  {}

  /** Slicing an encoded object gives each member, its key, its span and its
      value's span, in the order written. */
  lemma SlicesExact(ms: seq<Member>, unquote: Bytes -> Option<string>)
    requires Decodes(unquote) && WellFormed(Object(ms))
    ensures Members(Encode(Object(ms)), unquote) == Some(SlicesOf(ms))
  {
    hide MembersFrom, Decodes, EncodeMembers;
    var c := Encode(Object(ms));
    if ms == [] {
      EncodeNone();
    } else {
      StartsQuoted(ms);
      assert c[1] == EncodeMembers(ms)[0];
      assert c[1..] == EncodeMembers(ms) + "}";
      SlicesExactFrom(c, 1, ms, unquote);
    }
  }

  lemma StartsQuoted(ms: seq<Member>)
    requires ms != []
    ensures EncodeMembers(ms) != "" && EncodeMembers(ms)[0] == '\"'
  {
    EncodeFirst(ms);
    assert Quoted(ms[0].key)[0] == '\"';
    assert EncodeMember(ms[0])[0] == '\"';
  }
}
