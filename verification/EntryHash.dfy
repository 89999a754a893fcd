/** An entry's two hashes, computed over slices of its canonical bytes and, the
    reference, over its members decoded, put in canonical order and encoded. */
module EntryHash {
  import opened Entries
  import opened Slicer

  type Hash = Bytes -> string

  predicate IsEnvelope(k: string) {
    k in {"id", "type", "parent", "parents", "ts", "content"}
  }

  // ----- canonical order (section 3.2.3 of RFC 8785) -----

  /** The UTF-16 code units of a character. */
  function Units(c: char): seq<nat> {
    var n := c as int;
    if n < 0x1_0000 then [n] else [0xD800 + (n - 0x1_0000) / 0x400, 0xDC00 + (n - 0x1_0000) % 0x400]
  }

  function Utf16(s: string): seq<nat> {
    if s == "" then [] else Units(s[0]) + Utf16(s[1..])
  }

  predicate Before(a: seq<nat>, b: seq<nat>) {
    if b == [] then false
    else if a == [] then true
    else if a[0] != b[0] then a[0] < b[0]
    else Before(a[1..], b[1..])
  }

  predicate KeyBefore(a: string, b: string) {
    Before(Utf16(a), Utf16(b))
  }

  function Insert(m: Member, ms: seq<Member>): seq<Member> {
    if ms == [] || !KeyBefore(ms[0].key, m.key) then [m] + ms else [ms[0]] + Insert(m, ms[1..])
  }

  function Sorted(ms: seq<Member>): seq<Member> {
    if ms == [] then [] else Insert(ms[0], Sorted(ms[1..]))
  }

  /** The value with the members of every object in canonical order. */
  function Canon(d: Doc): Doc {
    match d
    case List(items) => List(CanonItems(items))
    case Object(ms) => Object(Sorted(CanonMembers(ms)))
    case _ => d
  }

  function CanonItems(items: seq<Doc>): seq<Doc> {
    if items == [] then [] else [Canon(items[0])] + CanonItems(items[1..])
  }

  function CanonMembers(ms: seq<Member>): seq<Member> {
    if ms == [] then [] else [Member(ms[0].key, Canon(ms[0].value))] + CanonMembers(ms[1..])
  }

  // ----- the reference -----

  function Body(ms: seq<Member>): seq<Member> {
    if ms == [] then [] else (if IsEnvelope(ms[0].key) then [] else [ms[0]]) + Body(ms[1..])
  }

  /** The value at a key, the last of it. */
  function Find(ms: seq<Member>, key: string): Option<Doc> {
    if ms == [] then None
    else
      match Find(ms[1..], key)
      case Some(d) => Some(d)
      case None => if ms[0].key == key then Some(ms[0].value) else None
  }

  const NULL := Scalar("null")

  function OrNull(d: Option<Doc>): Doc {
    match d case Some(v) => v case None => NULL
  }

  /** parents is hashed when it is a list of one or more. */
  predicate HasParents(d: Option<Doc>) {
    d.Some? && d.value.List? && d.value.items != []
  }

  function Envelope(ms: seq<Member>, content: string): seq<Member> {
    [Member("type", OrNull(Find(ms, "type"))), Member("parent", OrNull(Find(ms, "parent"))),
     Member("ts", OrNull(Find(ms, "ts"))), Member("content", Text(content))]
    + if HasParents(Find(ms, "parents")) then [Member("parents", Find(ms, "parents").value)] else []
  }

  /** The content hash and the id of an entry, from its members however
      ordered and spelled. */
  function EntryHashes(ms: seq<Member>, hash: Hash): (string, string) {
    var content := hash(Encode(Canon(Object(Body(ms)))));
    (hash(Encode(Canon(Object(Envelope(ms, content))))), content)
  }

  // ----- over the slices -----

  function BodySlices(ms: seq<Slice>): seq<Slice> {
    if ms == [] then [] else (if IsEnvelope(ms[0].key) then [] else [ms[0]]) + BodySlices(ms[1..])
  }

  function FindVal(ms: seq<Slice>, key: string): Option<Bytes> {
    if ms == [] then None
    else
      match FindVal(ms[1..], key)
      case Some(v) => Some(v)
      case None => if ms[0].key == key then Some(ms[0].val) else None
  }

  function NullOr(v: Option<Bytes>): Bytes {
    match v case Some(b) => b case None => "null"
  }

  /** A list of one or more, as compact bytes show it. */
  predicate ShowsItems(v: Bytes) {
    |v| >= 2 && v[0] == '[' && v[1] != ']'
  }

  function EnvelopeBytes(ms: seq<Slice>, content: string): Bytes {
    "{\"content\":\"" + content + "\",\"parent\":" + NullOr(FindVal(ms, "parent"))
    + (if FindVal(ms, "parents").Some? && ShowsItems(FindVal(ms, "parents").value)
       then ",\"parents\":" + FindVal(ms, "parents").value else "")
    + ",\"ts\":" + NullOr(FindVal(ms, "ts")) + ",\"type\":" + NullOr(FindVal(ms, "type")) + "}"
  }

  function BodyBytes(ms: seq<Slice>): Bytes {
    "{" + JoinRaw(BodySlices(ms)) + "}"
  }

  /** One walk over the members: the body built, the envelope's values noted. */
  method SplitMembers(ms: seq<Slice>) returns (body: Bytes, env: map<string, Bytes>)
    requires forall m | m in ms :: m.raw != ""
    ensures body == BodyBytes(ms)
    ensures forall k | IsEnvelope(k) :: FindVal(ms, k) == if k in env then Some(env[k]) else None
  {
    hide IsEnvelope, JoinRaw, BodySlices, FindVal;
    body, env := "{", map[];
    NoMembers();
    for i := 0 to |ms|
      invariant body == "{" + JoinRaw(BodySlices(ms[..i])) && (|body| > 1 <==> BodySlices(ms[..i]) != [])
      invariant forall k | IsEnvelope(k) :: FindVal(ms[..i], k) == if k in env then Some(env[k]) else None
    {
      var m := ms[i];
      assert ms[..i + 1] == ms[..i] + [m];
      BodySnoc(ms[..i], m);
      FindSnoc(ms[..i], m);
      if IsEnvelope(m.key) {
        env := env[m.key := m.val];
        assert BodySlices(ms[..i]) + [] == BodySlices(ms[..i]);
        continue;
      }
      assert m in ms;
      JoinSnoc(BodySlices(ms[..i]), m);
      if |body| > 1 {
        body := body + ",";
      }
      body := body + m.raw;
    }
    assert ms[..|ms|] == ms;
    body := body + "}";
  }

  method MemberHashes(ms: seq<Slice>, hash: Hash) returns (id: string, content: string)
    requires forall m | m in ms :: m.raw != ""
    ensures content == hash(BodyBytes(ms)) && id == hash(EnvelopeBytes(ms, content))
  {
    hide BodyBytes, FindVal;
    var body, env := SplitMembers(ms);
    content := hash(body);
    assert IsEnvelope("parent") && IsEnvelope("parents") && IsEnvelope("ts") && IsEnvelope("type");
    var envelope := "{\"content\":\"" + content + "\",\"parent\":" + (if "parent" in env then env["parent"] else "null");
    if "parents" in env && ShowsItems(env["parents"]) {
      envelope := envelope + (",\"parents\":" + env["parents"]);
    } else {
      envelope := envelope + "";
    }
    envelope := envelope + ",\"ts\":" + (if "ts" in env then env["ts"] else "null");
    envelope := envelope + ",\"type\":" + (if "type" in env then env["type"] else "null") + "}";
    id := hash(envelope);
  }

  lemma NoMembers()
    ensures BodySlices([]) == [] && JoinRaw([]) == "" && forall k :: FindVal([], k) == None
  {}

  lemma {:induction false} BodySnoc(ms: seq<Slice>, m: Slice)
    ensures BodySlices(ms + [m]) == BodySlices(ms) + if IsEnvelope(m.key) then [] else [m]
  {
    if ms != [] {
      assert (ms + [m])[1..] == ms[1..] + [m];
      BodySnoc(ms[1..], m);
    }
  }

  lemma {:induction false} FindSnoc(ms: seq<Slice>, m: Slice)
    ensures forall k :: FindVal(ms + [m], k) == if k == m.key then Some(m.val) else FindVal(ms, k)
  {
    if ms != [] {
      assert (ms + [m])[1..] == ms[1..] + [m];
      FindSnoc(ms[1..], m);
    }
  }

  lemma {:induction false} JoinSnoc(ms: seq<Slice>, m: Slice)
    ensures JoinRaw(ms + [m]) == JoinRaw(ms) + Comma(ms != []) + m.raw
  {
    if ms != [] {
      assert (ms + [m])[1..] == ms[1..] + [m];
      JoinSnoc(ms[1..], m);
    }
  }

  // ----- the order is total, and sorting keeps what is there -----

  lemma {:induction false} BeforeOr(a: seq<nat>, b: seq<nat>, c: seq<nat>)
    requires Before(a, c)
    ensures Before(a, b) || Before(b, c)
  {
    if a != [] && b != [] && a[0] == b[0] == c[0] {
      BeforeOr(a[1..], b[1..], c[1..]);
    }
  }

  ghost predicate InOrder(ms: seq<Member>) {
    forall i, j | 0 <= i < j < |ms| :: !KeyBefore(ms[j].key, ms[i].key)
  }

  lemma {:induction false} BeforeOneWay(a: seq<nat>, b: seq<nat>)
    requires Before(a, b)
    ensures !Before(b, a)
  {
    if a != [] && a[0] == b[0] {
      BeforeOneWay(a[1..], b[1..]);
    }
  }

  lemma {:induction false} InsertIs(m: Member, ms: seq<Member>)
    ensures forall x :: x in Insert(m, ms) <==> x == m || x in ms
    ensures InOrder(ms) ==> InOrder(Insert(m, ms))
  {
    if ms != [] {
      hide KeyBefore;
      if KeyBefore(ms[0].key, m.key) {
        InsertIs(m, ms[1..]);
        assert ms == [ms[0]] + ms[1..];
        var rest := Insert(m, ms[1..]);
        if InOrder(ms) {
          assert InOrder(ms[1..]);
          forall j | 0 <= j < |rest| ensures !KeyBefore(rest[j].key, ms[0].key) {
            assert rest[j] in rest;
            if rest[j] == m {
              OneWay(ms[0].key, m.key);
            } else {
              var k :| 0 <= k < |ms[1..]| && ms[1..][k] == rest[j];
              assert ms[k + 1] == rest[j];
            }
          }
        }
      } else if InOrder(ms) {
        var all := [m] + ms;
        forall i, j | 0 <= i < j < |all| ensures !KeyBefore(all[j].key, all[i].key) {
          if i == 0 && j > 1 {
            NotBeforeOn(ms[j - 1].key, ms[0].key, m.key);
          }
        }
      }
    }
  }

  lemma OneWay(a: string, b: string)
    requires KeyBefore(a, b)
    ensures !KeyBefore(b, a)
  {
    BeforeOneWay(Utf16(a), Utf16(b));
  }

  lemma NotBeforeOn(a: string, b: string, c: string)
    requires !KeyBefore(a, b) && !KeyBefore(b, c)
    ensures !KeyBefore(a, c)
  {
    if KeyBefore(a, c) {
      BeforeOr(Utf16(a), Utf16(b), Utf16(c));
    }
  }

  lemma {:induction false} SortedIs(ms: seq<Member>)
    ensures InOrder(Sorted(ms)) && forall x :: x in Sorted(ms) <==> x in ms
  {
    if ms != [] {
      SortedIs(ms[1..]);
      InsertIs(ms[0], Sorted(ms[1..]));
      assert ms == [ms[0]] + ms[1..];
    }
  }

  /** Leaving the envelope out of a sorted object is sorting the body. */
  lemma {:induction false} BodyOfInsert(m: Member, ms: seq<Member>)
    requires InOrder(ms)
    ensures Body(Insert(m, ms)) == if IsEnvelope(m.key) then Body(ms) else Insert(m, Body(ms))
  {
    hide KeyBefore, IsEnvelope;
    if ms != [] && KeyBefore(ms[0].key, m.key) {
      assert InOrder(ms[1..]);
      BodyOfInsert(m, ms[1..]);
      var rest := Insert(m, ms[1..]);
      assert ([ms[0]] + rest)[1..] == rest;
      assert Body(Insert(m, ms)) == (if IsEnvelope(ms[0].key) then [] else [ms[0]]) + Body(rest);
      if !IsEnvelope(ms[0].key) {
        assert ([ms[0]] + Body(ms[1..]))[1..] == Body(ms[1..]);
      } else {
        assert [] + Body(ms[1..]) == Body(ms[1..]);
        assert [] + Body(rest) == Body(rest);
      }
    } else {
      assert ([m] + ms)[1..] == ms;
      InsertFirst(m, ms);
    }
  }

  lemma {:induction false} BodyWithin(ms: seq<Member>)
    ensures forall x | x in Body(ms) :: x in ms
  {
    if ms != [] {
      BodyWithin(ms[1..]);
    }
  }

  lemma InsertFirst(m: Member, ms: seq<Member>)
    requires InOrder(ms) && (ms != [] ==> !KeyBefore(ms[0].key, m.key))
    ensures Insert(m, Body(ms)) == [m] + Body(ms)
  {
    hide KeyBefore, IsEnvelope;
    var body := Body(ms);
    BodyWithin(ms);
    if body != [] {
      assert body[0] in body;
      var k :| 0 <= k < |ms| && ms[k] == body[0];
      if k > 0 {
        NotBeforeOn(ms[k].key, ms[0].key, m.key);
      }
    }
  }

  lemma {:induction false} BodySorted(ms: seq<Member>)
    ensures Body(Sorted(CanonMembers(ms))) == Sorted(CanonMembers(Body(ms)))
  {
    hide IsEnvelope, KeyBefore, Insert, Canon;
    if ms != [] {
      var m := Member(ms[0].key, Canon(ms[0].value));
      var rest := CanonMembers(ms[1..]);
      BodySorted(ms[1..]);
      SortedIs(rest);
      assert ([m] + rest)[1..] == rest;
      BodyOfInsert(m, Sorted(rest));
      if IsEnvelope(ms[0].key) {
        assert [] + Body(ms[1..]) == Body(ms[1..]);
      } else {
        assert ([ms[0]] + Body(ms[1..]))[1..] == Body(ms[1..]);
        assert ([m] + CanonMembers(Body(ms[1..])))[1..] == CanonMembers(Body(ms[1..]));
      }
    }
  }

  // ----- looking a key up -----

  ghost predicate KeysDistinct(ms: seq<Member>) {
    forall i, j | 0 <= i < j < |ms| :: ms[i].key != ms[j].key
  }

  /** With distinct keys, the member at a key is the one with it. */
  lemma {:induction false} FindIs(ms: seq<Member>, key: string)
    requires KeysDistinct(ms)
    ensures forall m | m in ms && m.key == key :: Find(ms, key) == Some(m.value)
    ensures Find(ms, key).Some? ==> Member(key, Find(ms, key).value) in ms
  {
    if ms != [] {
      assert KeysDistinct(ms[1..]);
      FindIs(ms[1..], key);
      assert ms == [ms[0]] + ms[1..];
      if Find(ms[1..], key).Some? {
        var k :| 0 <= k < |ms[1..]| && ms[1..][k] == Member(key, Find(ms[1..], key).value);
        assert ms[k + 1].key == key;
      }
    }
  }

  lemma {:induction false} InsertDistinct(m: Member, ms: seq<Member>)
    requires KeysDistinct(ms) && forall x | x in ms :: x.key != m.key
    ensures KeysDistinct(Insert(m, ms))
  {
    hide KeyBefore;
    if ms != [] && KeyBefore(ms[0].key, m.key) {
      assert KeysDistinct(ms[1..]);
      InsertDistinct(m, ms[1..]);
      InsertIs(m, ms[1..]);
      var rest := Insert(m, ms[1..]);
      forall j | 0 <= j < |rest| ensures rest[j].key != ms[0].key {
        assert rest[j] in rest;
        if rest[j] != m {
          var k :| 0 <= k < |ms[1..]| && ms[1..][k] == rest[j];
          assert ms[k + 1] == rest[j];
        } else {
          assert ms[0] in ms;
        }
      }
    }
  }

  lemma {:induction false} SortedDistinct(ms: seq<Member>)
    requires KeysDistinct(ms)
    ensures KeysDistinct(Sorted(ms))
  {
    if ms != [] {
      assert KeysDistinct(ms[1..]);
      SortedDistinct(ms[1..]);
      SortedIs(ms[1..]);
      forall x | x in Sorted(ms[1..]) ensures x.key != ms[0].key {
        var k :| 0 <= k < |ms[1..]| && ms[1..][k] == x;
        assert ms[k + 1] == x;
      }
      InsertDistinct(ms[0], Sorted(ms[1..]));
    }
  }

  lemma {:induction false} CanonMembersAt(ms: seq<Member>)
    ensures |CanonMembers(ms)| == |ms|
    ensures forall i | 0 <= i < |ms| :: CanonMembers(ms)[i] == Member(ms[i].key, Canon(ms[i].value))
  {
    if ms != [] {
      CanonMembersAt(ms[1..]);
    }
  }

  function CanonOf(d: Option<Doc>): Option<Doc> {
    match d case None => None case Some(v) => Some(Canon(v))
  }

  /** Sorting loses no member and changes no lookup. */
  lemma FindCanon(ms: seq<Member>, key: string)
    requires KeysDistinct(ms)
    ensures Find(Sorted(CanonMembers(ms)), key) == CanonOf(Find(ms, key))
  {
    hide Sorted, Canon, Find;
    var all := CanonMembers(ms);
    CanonMembersAt(ms);
    assert KeysDistinct(all);
    SortedDistinct(all);
    SortedIs(all);
    FindIs(ms, key);
    FindIs(Sorted(all), key);
    assert forall i | 0 <= i < |ms| :: ms[i] in ms && all[i] in all && all[i].key == ms[i].key;
    if Find(ms, key).Some? {
      var i :| 0 <= i < |ms| && ms[i] == Member(key, Find(ms, key).value);
      assert all[i] in all;
    }
  }

  // ----- the two hash the same bytes -----

  lemma {:induction false} CanonWellFormed(d: Doc)
    requires WellFormed(d)
    ensures WellFormed(Canon(d))
  {
    match d
    case List(items) => CanonItemsWellFormed(items);
    case Object(ms) =>
      CanonMembersWellFormed(ms);
      SortedIs(CanonMembers(ms));
    case _ =>
  }

  lemma {:induction false} CanonItemsWellFormed(items: seq<Doc>)
    requires forall x | x in items :: WellFormed(x)
    ensures |CanonItems(items)| == |items| && forall x | x in CanonItems(items) :: WellFormed(x)
  {
    if items != [] {
      CanonWellFormed(items[0]);
      CanonItemsWellFormed(items[1..]);
    }
  }

  lemma {:induction false} CanonMembersWellFormed(ms: seq<Member>)
    requires forall m | m in ms :: WellFormed(m.value)
    ensures forall m | m in CanonMembers(ms) :: WellFormed(m.value)
  {
    if ms != [] {
      CanonWellFormed(ms[0].value);
      CanonMembersWellFormed(ms[1..]);
    }
  }

  lemma {:induction false} JoinSlices(ms: seq<Member>)
    ensures JoinRaw(SlicesOf(ms)) == EncodeMembers(ms) && |SlicesOf(ms)| == |ms|
  {
    if ms != [] {
      hide EncodeMember, Encode;
      assert SlicesOf(ms)[1..] == SlicesOf(ms[1..]);
      JoinSlices(ms[1..]);
    }
  }

  lemma {:induction false} BodyOfSlices(ms: seq<Member>)
    ensures BodySlices(SlicesOf(ms)) == SlicesOf(Body(ms))
  {
    if ms != [] {
      hide SliceOf, IsEnvelope;
      SliceKey(ms[0]);
      assert SlicesOf(ms)[1..] == SlicesOf(ms[1..]);
      BodyOfSlices(ms[1..]);
      if !IsEnvelope(ms[0].key) {
        assert ([ms[0]] + Body(ms[1..]))[1..] == Body(ms[1..]);
      } else {
        assert [] + Body(ms[1..]) == Body(ms[1..]);
        assert [] + BodySlices(SlicesOf(ms[1..])) == BodySlices(SlicesOf(ms[1..]));
      }
    }
  }

  lemma SliceKey(m: Member)
    ensures SliceOf(m).key == m.key && SliceOf(m).val == Encode(m.value)
  {}

  lemma BodyBytesAre(ms: seq<Member>)
    ensures BodyBytes(SlicesOf(ms)) == Encode(Object(Body(ms)))
  {
    BodyOfSlices(ms);
    JoinSlices(Body(ms));
  }

  lemma {:induction false} FindInSlices(ms: seq<Member>, key: string)
    ensures FindVal(SlicesOf(ms), key) == match Find(ms, key) case None => None case Some(d) => Some(Encode(d))
  {
    if ms != [] {
      hide SliceOf, Encode;
      SliceKey(ms[0]);
      assert SlicesOf(ms)[1..] == SlicesOf(ms[1..]);
      FindInSlices(ms[1..], key);
    }
  }

  /** Text no character of which is escaped, as a hash in hexadecimal is. */
  ghost predicate Plain(s: string) {
    SpelledAll(s) == s
  }

  /** The envelope in canonical order. */
  function InKeyOrder(ms: seq<Member>, content: string): seq<Member> {
    [Member("content", Text(content)), Member("parent", OrNull(Find(ms, "parent")))]
    + (if HasParents(Find(ms, "parents")) then [Member("parents", Find(ms, "parents").value)] else [])
    + [Member("ts", OrNull(Find(ms, "ts"))), Member("type", OrNull(Find(ms, "type")))]
  }

  lemma NamesPlain()
    ensures Quoted("content") == "\"content\"" && Quoted("parent") == "\"parent\"" && Quoted("parents") == "\"parents\""
    ensures Quoted("ts") == "\"ts\"" && Quoted("type") == "\"type\""
  {
    hide SpelledAll, Quoted;
    PlainName("content");
    PlainName("parent");
    PlainName("parents");
    PlainName("ts");
    PlainName("type");
  }

  lemma {:induction false} PlainName(s: string)
    requires forall i | 0 <= i < |s| :: 'a' <= s[i] <= 'z'
    ensures Quoted(s) == "\"" + s + "\"" && SpelledAll(s) == s
  {
    hide Spelled;
    if s != "" {
      PlainLetter(s[0]);
      PlainName(s[1..]);
      assert s == [s[0]] + s[1..];
    }
  }

  lemma PlainLetter(c: char)
    requires 'a' <= c <= 'z'
    ensures Spelled(c) == [c]
  {}

  lemma ShowsWhatItHas(d: Doc)
    requires WellFormed(d)
    ensures ShowsItems(Encode(d)) <==> d.List? && d.items != []
  {
    match d
    case List(items) =>
      if items != [] {
        StartsItem(items[0]);
        assert Encode(d)[1] == Encode(items[0])[0];
      }
    case Scalar(t) => assert t[0] in t;
    case _ =>
  }

  lemma StartsItem(d: Doc)
    requires WellFormed(d)
    ensures Encode(d) != "" && Encode(d)[0] != ']'
  {
    if d.Scalar? {
      assert d.text[0] in d.text;
    }
  }

  /** Encoding members one after another. */
  lemma EncodeOne(m: Member, rest: seq<Member>)
    ensures EncodeMembers([m] + rest) == Quoted(m.key) + ":" + Encode(m.value) + Comma(rest != []) + EncodeMembers(rest)
  {
    hide Quoted, Encode;
    assert ([m] + rest)[1..] == rest;
  }

  lemma EncodeTwo(a: Member, b: Member)
    ensures EncodeMembers([a, b]) == Quoted(a.key) + ":" + Encode(a.value) + "," + Quoted(b.key) + ":" + Encode(b.value)
  {
    hide Quoted, Encode;
    assert [a, b] == [a] + [b];
    EncodeOne(a, [b]);
    assert [b] == [b] + [];
    EncodeOne(b, []);
    assert EncodeMembers([]) == "";
  }

  lemma {:induction false} FoundWellFormed(ms: seq<Member>, key: string)
    requires forall m | m in ms :: WellFormed(m.value)
    ensures Find(ms, key).Some? ==> WellFormed(Find(ms, key).value)
  {
    if ms != [] {
      FoundWellFormed(ms[1..], key);
    }
  }

  /** The four or five members an envelope has, encoded. */
  lemma EncodeEnvelope(content: string, parent: Doc, parents: Option<Doc>, ts: Doc, type_: Doc)
    requires Plain(content)
    ensures Encode(Object([Member("content", Text(content)), Member("parent", parent)]
              + (if parents.Some? then [Member("parents", parents.value)] else [])
              + [Member("ts", ts), Member("type", type_)]))
         == "{\"content\":\"" + content + "\",\"parent\":" + Encode(parent)
            + (if parents.Some? then ",\"parents\":" + Encode(parents.value) else "")
            + ",\"ts\":" + Encode(ts) + ",\"type\":" + Encode(type_) + "}"
  {
    hide EncodeMembers, Plain, Quoted;
    var (c, p, t, y) := (Member("content", Text(content)), Member("parent", parent), Member("ts", ts), Member("type", type_));
    var mid, shown := EncodeTail(p, parents, t, y);
    var tail := [p] + ((if parents.Some? then [Member("parents", parents.value)] else []) + [t, y]);
    assert [c, p] + (if parents.Some? then [Member("parents", parents.value)] else []) + [t, y] == [c] + tail;
    NamesPlain();
    PlainQuoted(content);
    EncodeOne(c, tail);
    Layout(content, Encode(parent), mid, shown, Encode(ts), Encode(type_));
  }

  /** The members after the first, with the optional one spelled two ways. */
  lemma EncodeTail(p: Member, parents: Option<Doc>, t: Member, y: Member) returns (mid: Bytes, shown: Bytes)
    requires p.key == "parent" && t.key == "ts" && y.key == "type"
    ensures shown == if parents.Some? then ",\"parents\":" + Encode(parents.value) else ""
    ensures "," + mid == shown + ","
    ensures EncodeMembers([p] + ((if parents.Some? then [Member("parents", parents.value)] else []) + [t, y]))
         == "\"parent\"" + ":" + Encode(p.value) + "," + (mid + ("\"ts\"" + ":" + Encode(t.value) + "," + "\"type\"" + ":" + Encode(y.value)))
  {
    hide EncodeMembers, Quoted, Encode;
    NamesPlain();
    EncodeTwo(t, y);
    if parents.Some? {
      var m := Member("parents", parents.value);
      EncodeOne(m, [t, y]);
      EncodeOne(p, [m] + [t, y]);
      mid, shown := "\"parents\"" + ":" + Encode(parents.value) + ",", ",\"parents\":" + Encode(parents.value);
      assert "," + "\"parents\"" + ":" == ",\"parents\":";
      assert "," + mid == ("," + "\"parents\"" + ":") + Encode(parents.value) + ",";
    } else {
      assert [] + [t, y] == [t, y];
      EncodeOne(p, [t, y]);
      mid, shown := "", "";
    }
  }

  lemma PlainQuoted(s: string)
    requires Plain(s)
    ensures Quoted(s) == "\"" + s + "\""
  {}

  /** The two members at the end, and the comma before them. */
  lemma LayoutLast(ts: Bytes, type_: Bytes) returns (last: Bytes)
    ensures last == "\"ts\"" + ":" + ts + "," + "\"type\"" + ":" + type_
    ensures "," + last == ",\"ts\":" + ts + ",\"type\":" + type_
  {
    last := "\"ts\"" + ":" + ts + "," + "\"type\"" + ":" + type_;
    var (t, y) := ("\"ts\"" + ":", "\"type\"" + ":");
    assert "," + t == ",\"ts\":" && "," + y == ",\"type\":";
    assert "," + last == ("," + t) + ts + ("," + y) + type_;
  }

  lemma LayoutFirst(content: Bytes) returns (c: Bytes)
    ensures c == "\"content\"" + ":" + ("\"" + content + "\"")
    ensures "{" + c == "{\"content\":\"" + content + "\""
  {
    c := "\"content\"" + ":" + ("\"" + content + "\"");
    var name := "{" + "\"content\"" + ":" + "\"";
    assert name == "{\"content\":\"";
    assert "{" + c == name + content + "\"";
  }

  lemma LayoutParent(content: Bytes, parent: Bytes) returns (p: Bytes)
    ensures p == "\"parent\"" + ":" + parent
    ensures "{\"content\":\"" + content + "\"" + ("," + p) == "{\"content\":\"" + content + "\",\"parent\":" + parent
  {
    p := "\"parent\"" + ":" + parent;
    var name := "\"" + "," + "\"parent\"" + ":";
    assert name == "\",\"parent\":";
    assert "{\"content\":\"" + content + "\"" + ("," + p) == "{\"content\":\"" + content + name + parent;
  }

  lemma Layout(content: Bytes, parent: Bytes, mid: Bytes, shown: Bytes, ts: Bytes, type_: Bytes)
    requires "," + mid == shown + ","
    ensures "{" + ("\"content\"" + ":" + ("\"" + content + "\"") + ","
                   + ("\"parent\"" + ":" + parent + "," + (mid + ("\"ts\"" + ":" + ts + "," + "\"type\"" + ":" + type_)))) + "}"
         == "{\"content\":\"" + content + "\",\"parent\":" + parent + shown + ",\"ts\":" + ts + ",\"type\":" + type_ + "}"
  {
    var last := LayoutLast(ts, type_);
    var c := LayoutFirst(content);
    var p := LayoutParent(content, parent);
    Regroup(c, p, mid, shown, last);
    assert shown + ("," + last) == shown + ",\"ts\":" + ts + ",\"type\":" + type_;
  }

  lemma Regroup(c: Bytes, p: Bytes, mid: Bytes, shown: Bytes, last: Bytes)
    requires "," + mid == shown + ","
    ensures "{" + (c + "," + (p + "," + (mid + last))) + "}" == "{" + c + ("," + p) + (shown + ("," + last)) + "}"
  {
    assert "," + (mid + last) == ("," + mid) + last == (shown + ",") + last == shown + ("," + last);
    assert "{" + (c + "," + (p + "," + (mid + last))) == "{" + c + ("," + p) + ("," + (mid + last));
  }

  lemma EnvelopeBytesAre(ms: seq<Member>, content: string)
    requires (forall m | m in ms :: WellFormed(m.value)) && Plain(content)
    ensures EnvelopeBytes(SlicesOf(ms), content) == Encode(Object(InKeyOrder(ms, content)))
  {
    hide EncodeMembers, Find, FindVal, SlicesOf, WellFormed, ShowsItems, Plain;
    FindInSlices(ms, "parent");
    FindInSlices(ms, "parents");
    FindInSlices(ms, "ts");
    FindInSlices(ms, "type");
    FoundWellFormed(ms, "parents");
    var parents := Find(ms, "parents");
    if parents.Some? {
      ShowsWhatItHas(parents.value);
    }
    EncodeEnvelope(content, OrNull(Find(ms, "parent")), if HasParents(parents) then parents else None,
                   OrNull(Find(ms, "ts")), OrNull(Find(ms, "type")));
  }

  lemma NamesOrdered()
    ensures KeyBefore("content", "parent") && KeyBefore("parent", "parents") && KeyBefore("parents", "ts") && KeyBefore("ts", "type")
    ensures KeyBefore("content", "parents") && KeyBefore("content", "ts") && KeyBefore("content", "type")
    ensures KeyBefore("parent", "ts") && KeyBefore("parent", "type") && KeyBefore("parents", "type")
  {
    hide KeyBefore;
    Differs("content", "parent");
    Differs("content", "parents");
    Differs("content", "ts");
    Differs("content", "type");
    Differs("parent", "ts");
    Differs("parent", "type");
    Differs("parents", "ts");
    Differs("parents", "type");
    LongerName();
    LaterName();
  }

  lemma Differs(a: string, b: string)
    requires a != "" && b != "" && a[0] < b[0] && b[0] as int < 128
    ensures KeyBefore(a, b)
  {
    hide KeyBefore;
    assert "" + a == a && "" + b == b;
    FirstDiffers("", a, b);
  }

  lemma LongerName()
    ensures KeyBefore("parent", "parents")
  {
    hide KeyBefore;
    Longer("parent", "s");
    assert "parent" + "s" == "parents";
  }

  lemma LaterName()
    ensures KeyBefore("ts", "type")
  {
    hide KeyBefore;
    assert "ts" == "t" + "s" && "type" == "t" + "ype";
    FirstDiffers("t", "s", "ype");
  }

  /** Keys that agree up to a smaller ASCII character are in order. */
  lemma {:induction false} FirstDiffers(same: string, a: string, b: string)
    requires a != "" && b != "" && a[0] < b[0] && b[0] as int < 128
    ensures KeyBefore(same + a, same + b)
    decreases |same|
  {
    if same == "" {
      assert same + a == a && same + b == b;
    } else {
      assert (same + a)[1..] == same[1..] + a && (same + b)[1..] == same[1..] + b;
      FirstDiffers(same[1..], a, b);
      UnitsFirst(Units(same[0]), Utf16(same[1..] + a), Utf16(same[1..] + b));
    }
  }

  lemma {:induction false} UnitsFirst(u: seq<nat>, a: seq<nat>, b: seq<nat>)
    requires Before(a, b)
    ensures Before(u + a, u + b)
    decreases |u|
  {
    if u == [] {
      assert u + a == a && u + b == b;
    } else {
      assert (u + a)[1..] == u[1..] + a && (u + b)[1..] == u[1..] + b;
      UnitsFirst(u[1..], a, b);
    }
  }

  lemma {:induction false} Longer(a: string, more: string)
    requires more != ""
    ensures KeyBefore(a, a + more)
    decreases |a|
  {
    if a == "" {
      assert a + more == more;
    } else {
      assert (a + more)[1..] == a[1..] + more;
      Longer(a[1..], more);
      UnitsFirst(Units(a[0]), Utf16(a[1..]), Utf16(a[1..] + more));
    }
  }

  /** The order the fast form writes is the canonical one. */
  lemma SortEnvelope(c: Member, p: Member, ps: Option<Member>, t: Member, y: Member)
    requires c.key == "content" && p.key == "parent" && t.key == "ts" && y.key == "type" && (ps.Some? ==> ps.value.key == "parents")
    ensures Sorted([y, p, t, c] + if ps.Some? then [ps.value] else [])
         == [c, p] + (if ps.Some? then [ps.value] else []) + [t, y]
  {
    hide KeyBefore;
    NamesOrdered();
    var tail := if ps.Some? then [ps.value] else [];
    assert [y, p, t, c] + tail == [y] + ([p] + ([t] + ([c] + tail)));
    SortedFirst(c, tail);
    SortedFirst(t, [c] + tail);
    SortedFirst(p, [t] + ([c] + tail));
    SortedFirst(y, [p] + ([t] + ([c] + tail)));
    OneWay("content", "parents");
    OneWay("content", "ts");
    OneWay("content", "parent");
    OneWay("parents", "ts");
    OneWay("parent", "ts");
    OneWay("parent", "parents");
    assert Sorted([]) == [];
    assert Sorted(tail) == tail by {
      if ps.Some? {
        SortedFirst(ps.value, []);
        assert [ps.value] + [] == [ps.value];
      }
    }
    assert Sorted([c] + tail) == [c] + tail;
    InsertBehind(t, c, tail);
    InsertBehind(p, c, tail + [t]);
    InsertBehind(y, c, [p] + tail + [t]);
    if ps.Some? {
      InsertBehind(t, ps.value, []);
      InsertBehind(y, ps.value, [t]);
    }
    InsertBehind(y, p, tail + [t]);
    InsertBehind(y, t, []);
    InsertAhead(p, tail + [t]);
  }

  lemma SortedFirst(m: Member, rest: seq<Member>)
    ensures Sorted([m] + rest) == Insert(m, Sorted(rest))
  {
    assert ([m] + rest)[1..] == rest;
  }

  lemma InsertBehind(m: Member, first: Member, rest: seq<Member>)
    ensures KeyBefore(first.key, m.key) ==> Insert(m, [first] + rest) == [first] + Insert(m, rest)
    ensures Insert(m, []) == [m]
  {
    hide KeyBefore;
    assert ([first] + rest)[1..] == rest;
  }

  lemma InsertAhead(m: Member, rest: seq<Member>)
    requires rest != [] && !KeyBefore(rest[0].key, m.key)
    ensures Insert(m, rest) == [m] + rest
  {
    hide KeyBefore;
  }

  lemma EnvelopeSorted(ms: seq<Member>, content: string)
    requires KeysDistinct(ms)
    ensures Sorted(CanonMembers(Envelope(ms, content))) == InKeyOrder(Sorted(CanonMembers(ms)), content)
  {
    hide Sorted, Find, KeysDistinct;
    var all := Sorted(CanonMembers(ms));
    FindCanon(ms, "parent");
    FindCanon(ms, "parents");
    FindCanon(ms, "ts");
    FindCanon(ms, "type");
    var env := Envelope(ms, content);
    CanonMembersAt(env);
    var parents := Find(ms, "parents");
    HasCanon(parents);
    var c := Member("content", Text(content));
    var p := Member("parent", OrNull(Find(all, "parent")));
    var t := Member("ts", OrNull(Find(all, "ts")));
    var y := Member("type", OrNull(Find(all, "type")));
    var ps := if HasParents(parents) then Some(Member("parents", Find(all, "parents").value)) else None;
    assert CanonMembers(env) == [y, p, t, c] + if ps.Some? then [ps.value] else [];
    SortEnvelope(c, p, ps, t, y);
  }

  lemma HasCanon(d: Option<Doc>)
    ensures HasParents(CanonOf(d)) <==> HasParents(d)
  {
    if d.Some? && d.value.List? {
      assert CanonItems(d.value.items) == [] <==> d.value.items == [];
    }
  }

  /** Slicing the canonical bytes of an entry and hashing the slices gives the
      content hash and the id that decoding, ordering and encoding give. */
  lemma SlicesHashAsEntry(ms: seq<Member>, hash: Hash, unquote: Bytes -> Option<string>)
    requires WellFormed(Object(ms)) && KeysDistinct(ms) && Decodes(unquote) && forall b :: Plain(hash(b))
    ensures var slices := Members(Encode(Canon(Object(ms))), unquote);
            && slices.Some?
            && (forall m | m in slices.value :: m.raw != "")
            && var content := hash(BodyBytes(slices.value));
            (hash(EnvelopeBytes(slices.value, content)), content) == EntryHashes(ms, hash)
  {
    hide Encode, EnvelopeBytes, BodyBytes, Sorted, Members, Plain, Decodes, KeysDistinct, SlicesOf;
    var all := Sorted(CanonMembers(ms));
    CanonWellFormed(Object(ms));
    assert Canon(Object(ms)) == Object(all);
    SlicesExact(all, unquote);
    RawsNonEmpty(all);
    BodyBytesAre(all);
    BodySorted(ms);
    var content := hash(BodyBytes(SlicesOf(all)));
    assert Canon(Object(Body(ms))) == Object(Body(all));
    assert Plain(content);
    AllWellFormed(all);
    EnvelopeBytesAre(all, content);
    EnvelopeSorted(ms, content);
  }

  lemma AllWellFormed(ms: seq<Member>)
    requires WellFormed(Object(ms))
    ensures forall m | m in ms :: WellFormed(m.value)
  {}

  lemma {:induction false} RawsNonEmpty(ms: seq<Member>)
    ensures forall m | m in SlicesOf(ms) :: m.raw != ""
  {
    if ms != [] {
      RawsNonEmpty(ms[1..]);
    }
  }

  /** What a line that is sliced hashes to: the fast form of EntryHashes. */
  method EntryHashesCanonical(ghost ms: seq<Member>, c: Bytes, hash: Hash, unquote: Bytes -> Option<string>)
    returns (id: string, content: string)
    requires WellFormed(Object(ms)) && KeysDistinct(ms) && Decodes(unquote) && forall b :: Plain(hash(b))
    requires c == Encode(Canon(Object(ms)))
    ensures (id, content) == EntryHashes(ms, hash)
  {
    hide *;
    SlicesHashAsEntry(ms, hash, unquote);
    var slices := CanonicalMembers(c, unquote);
    id, content := MemberHashes(slices.value, hash);
  }
}
