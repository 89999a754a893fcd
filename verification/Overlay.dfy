/** What a reader could not hold of a line it read, and how it is grafted back
    onto what the fields encode now: a three-way merge of JSON values. */
module Overlay {
  import opened Entries

  type Int64 = i: int | -0x8000_0000_0000_0000 <= i < 0x8000_0000_0000_0000

  /** A number as spelled, and what it reads as: two alike spellings are the
      same number, two integers compare as integers, and others as floats. */
  datatype Number = Number(text: string, int64: Option<Int64>, float: Option<real>)

  datatype Json = Null | Bool(b: bool) | Num(n: Number) | Str(s: string) | Arr(items: seq<Json>) | Obj(members: map<string, Json>)

  predicate NumSame(r: Number, s: Number) {
    if r == s then true
    else if r.int64.Some? && s.int64.Some? then r.int64 == s.int64
    else r.float.Some? && r.float == s.float
  }

  // ----- differing by extras alone -----

  /** raw holds all seen does, a null it lacks aside. */
  predicate Same(raw: Json, seen: Json)
    decreases seen
  {
    match seen
    case Obj(s) => raw.Obj? && forall k | k in s :: if k in raw.members then Same(raw.members[k], s[k]) else s[k] == Null
    case Arr(s) => raw.Arr? && |raw.items| == |s| && forall i | 0 <= i < |s| :: Same(raw.items[i], s[i])
    case Num(n) => raw.Num? && NumSame(raw.n, n)
    case _ => raw == seen
  }

  /** and something besides, or a null left out. */
  predicate Extras(raw: Json, seen: Json)
    requires Same(raw, seen)
    decreases seen
  {
    match seen
    case Obj(s) => (exists k | k in s :: k !in raw.members || Extras(raw.members[k], s[k])) || exists k | k in raw.members :: k !in s
    case Arr(s) => exists i | 0 <= i < |s| :: Extras(raw.items[i], s[i])
    case _ => false
  }

  predicate Unchanged(cv: Json, sv: Json) {
    Same(cv, sv) && !Extras(cv, sv)
  }

  method ExtrasOnly(raw: Json, seen: Json) returns (same: bool, extras: bool)
    ensures same == Same(raw, seen) && extras == (same && Extras(raw, seen))
    decreases seen
  {
    match seen
    case Obj(s) =>
      if !raw.Obj? {
        return false, false;
      }
      same, extras := ExtrasInMembers(raw, seen);
    case Arr(s) =>
      if !raw.Arr? || |raw.items| != |s| {
        return false, false;
      }
      extras := false;
      for i := 0 to |s|
        invariant forall k | 0 <= k < i :: Same(raw.items[k], s[k])
        invariant extras <==> exists k | 0 <= k < i :: Same(raw.items[k], s[k]) && Extras(raw.items[k], s[k])
      {
        var one, ex := ExtrasOnly(raw.items[i], s[i]);
        if !one {
          return false, false;
        }
        extras := extras || ex;
      }
      return true, extras;
    case Num(n) => return raw.Num? && NumSame(raw.n, n), false;
    case _ => return raw == seen, false;
  }

  method ExtrasInMembers(raw: Json, seen: Json) returns (same: bool, extras: bool)
    requires raw.Obj? && seen.Obj?
    ensures same == Same(raw, seen) && extras == (same && Extras(raw, seen))
    decreases seen, 0
  {
    var s, r := seen.members, raw.members;
    extras := false;
    var left := s.Keys;
    while left != {}
      invariant left <= s.Keys
      invariant forall k | k in s && k !in left :: if k in r then Same(r[k], s[k]) else s[k] == Null
      invariant extras <==> exists k :: k in s && k !in left && (k !in r || (Same(r[k], s[k]) && Extras(r[k], s[k])))
      decreases |left|
    {
      var k :| k in left;
      left := left - {k};
      if k !in r {
        if s[k] != Null {
          return false, false;
        }
        extras := true;
      } else {
        var one, ex := ExtrasOnly(r[k], s[k]);
        if !one {
          return false, false;
        }
        extras := extras || ex;
      }
    }
    if exists k | k in r :: k !in s {
      extras := true;
    }
    return true, extras;
  }

  // ----- the overlay -----

  /** The first element of s from j on that is unused and as cv is. */
  function FirstFrom(cv: Json, s: seq<Json>, used: set<nat>, j: nat): (m: nat)
    requires j <= |s|
    ensures j <= m <= |s|
    decreases |s| - j
  {
    if j == |s| || (j !in used && Unchanged(cv, s[j])) then j else FirstFrom(cv, s, used, j + 1)
  }

  lemma {:induction false} FirstIs(cv: Json, s: seq<Json>, used: set<nat>, j: nat)
    requires j <= |s|
    ensures var m := FirstFrom(cv, s, used, j);
            && (m < |s| ==> m !in used && Unchanged(cv, s[m]))
            && forall k | j <= k < m :: k in used || !Unchanged(cv, s[k])
    decreases |s| - j
  {
    hide Unchanged;
    if j < |s| && !(j !in used && Unchanged(cv, s[j])) {
      FirstIs(cv, s, used, j + 1);
    }
  }

  /** The one unused element as cv is, when exactly one is. */
  function Sole(cv: Json, s: seq<Json>, used: set<nat>): Option<nat> {
    var j := FirstFrom(cv, s, used, 0);
    if j < |s| && FirstFrom(cv, s, used, j + 1) == |s| then Some(j) else None
  }

  predicate Kept(c: seq<Json>, s: seq<Json>, i: nat)
    requires i < |c|
  {
    i < |s| && Unchanged(c[i], s[i])
  }

  function InPlace(c: seq<Json>, s: seq<Json>): set<nat> {
    set i: nat | i < |c| && Kept(c, s, i)
  }

  /** For each of the first n of c, the element of s to graft: the one at the
      same index if it matches, else the single unused match; and all used. */
  function Taken(c: seq<Json>, s: seq<Json>, n: nat): (t: (seq<Option<nat>>, set<nat>))
    requires n <= |c|
    ensures |t.0| == n
  {
    if n == 0 then ([], InPlace(c, s))
    else
      var (m, used) := Taken(c, s, n - 1);
      if Kept(c, s, n - 1) then (m + [Some(n - 1)], used)
      else
        match Sole(c[n - 1], s, used)
        case Some(j) => (m + [Some(j)], used + {j})
        case None => (m + [None], used)
  }

  function Matches(c: seq<Json>, s: seq<Json>): (m: seq<Option<nat>>)
    ensures |m| == |c|
  {
    Taken(c, s, |c|).0
  }

  ghost predicate Fit(c: seq<Json>, s: seq<Json>, m: seq<Option<nat>>, used: set<nat>)
    requires |m| <= |c|
  {
    && InPlace(c, s) <= used
    && (forall i | 0 <= i < |m| && Kept(c, s, i) :: m[i] == Some(i))
    && (forall i | 0 <= i < |m| && m[i].Some? :: m[i].value in used && m[i].value < |s| && Unchanged(c[i], s[m[i].value]))
    && (forall i | 0 <= i < |m| && m[i].Some? && !Kept(c, s, i) :: m[i].value !in InPlace(c, s))
  }

  lemma {:induction false} TakenFit(c: seq<Json>, s: seq<Json>, n: nat)
    requires n <= |c|
    ensures Fit(c, s, Taken(c, s, n).0, Taken(c, s, n).1)
  {
    hide Unchanged, FirstFrom, Fit, Kept, InPlace;
    if n == 0 {
      NoneTaken(c, s);
    } else {
      TakenFit(c, s, n - 1);
      var (m, used) := Taken(c, s, n - 1);
      FirstIs(c[n - 1], s, used, 0);
      if Kept(c, s, n - 1) {
        KeptInPlace(c, s, m, used, n - 1);
        FitSnoc(c, s, m, used, Some(n - 1));
      } else {
        FitSnoc(c, s, m, used, Sole(c[n - 1], s, used));
      }
    }
  }

  lemma NoneTaken(c: seq<Json>, s: seq<Json>)
    ensures Fit(c, s, [], InPlace(c, s))
  {
    hide Unchanged, Kept;
  }

  lemma KeptInPlace(c: seq<Json>, s: seq<Json>, m: seq<Option<nat>>, used: set<nat>, i: nat)
    requires |m| <= |c| && Fit(c, s, m, used) && i < |c| && Kept(c, s, i)
    ensures i in InPlace(c, s) && i in used && used + {i} == used && i < |s| && Unchanged(c[i], s[i])
  {
    hide Unchanged;
  }

  lemma FitSnoc(c: seq<Json>, s: seq<Json>, m: seq<Option<nat>>, used: set<nat>, x: Option<nat>)
    requires |m| < |c| && Fit(c, s, m, used)
    requires Kept(c, s, |m|) ==> x == Some(|m|)
    requires x.Some? ==> x.value < |s| && Unchanged(c[|m|], s[x.value])
    requires x.Some? && !Kept(c, s, |m|) ==> x.value !in used
    ensures Fit(c, s, m + [x], if x.Some? then used + {x.value} else used)
  {
    hide Unchanged, Kept;
  }

  ghost predicate Once(m: seq<Option<nat>>) {
    forall i, j | 0 <= i < j < |m| && m[i].Some? :: m[i] != m[j]
  }

  lemma TakenNext(c: seq<Json>, s: seq<Json>, n: nat) returns (x: Option<nat>)
    requires n < |c|
    ensures Taken(c, s, n + 1).0 == Taken(c, s, n).0 + [x]
    ensures Kept(c, s, n) ==> x == Some(n)
    ensures x.Some? && !Kept(c, s, n) ==> x.value !in Taken(c, s, n).1
  {
    hide Unchanged, FirstFrom, Kept;
    var used := Taken(c, s, n).1;
    FirstIs(c[n], s, used, 0);
    x := if Kept(c, s, n) then Some(n) else Sole(c[n], s, used);
  }

  /** No two take the same. */
  lemma {:induction false} TakenOnce(c: seq<Json>, s: seq<Json>, n: nat)
    requires n <= |c|
    ensures Once(Taken(c, s, n).0)
  {
    if n > 0 {
      var k := n - 1;
      TakenOnce(c, s, k);
      OnceNext(c, s, k);
    }
  }

  lemma OnceNext(c: seq<Json>, s: seq<Json>, n: nat)
    requires n < |c| && Once(Taken(c, s, n).0)
    ensures Once(Taken(c, s, n + 1).0)
  {
    hide Unchanged, FirstFrom, InPlace, Sole, Taken, Fit, Once, Kept;
    var x := TakenNext(c, s, n);
    TakenFit(c, s, n);
    OnceSnoc(c, s, n, Taken(c, s, n).0, Taken(c, s, n).1, x);
  }

  lemma OnceSnoc(c: seq<Json>, s: seq<Json>, n: nat, m: seq<Option<nat>>, used: set<nat>, x: Option<nat>)
    requires n == |m| < |c| && Fit(c, s, m, used) && Once(m)
    requires Kept(c, s, n) ==> x == Some(n)
    requires x.Some? && !Kept(c, s, n) ==> x.value !in used
    ensures Once(m + [x])
  {
    hide Unchanged, Kept;
    if Kept(c, s, n) {
      assert n in InPlace(c, s);
    }
  }

  /** Each element read is grafted onto at most one element now, as it was. */
  lemma GraftedOnce(c: seq<Json>, s: seq<Json>)
    ensures forall i | 0 <= i < |c| && Matches(c, s)[i].Some? ::
              Matches(c, s)[i].value < |s| && Unchanged(c[i], s[Matches(c, s)[i].value])
    ensures forall i, j | 0 <= i < j < |c| && Matches(c, s)[i].Some? :: Matches(c, s)[i] != Matches(c, s)[j]
    ensures forall i | 0 <= i < |c| && Kept(c, s, i) :: Matches(c, s)[i] == Some(i)
  {
    hide Unchanged, Taken, Kept;
    TakenFit(c, s, |c|);
    TakenOnce(c, s, |c|);
  }

  lemma {:induction false} TakenPrefix(c: seq<Json>, s: seq<Json>, n: nat, k: nat)
    requires k < n <= |c|
    ensures Taken(c, s, n).0[k] == Taken(c, s, k + 1).0[k]
  {
    if k + 1 < n {
      TakenPrefix(c, s, n - 1, k);
    }
  }

  function Elements(c: seq<Json>, r: seq<Json>, s: seq<Json>): seq<Json>
    requires |r| == |s|
  {
    GraftedOnce(c, s);
    seq(|c|, i requires 0 <= i < |c| =>
      match Matches(c, s)[i]
      case Some(j) => r[j]
      case None => c[i])
  }

  predicate Leaves(c: map<string, Json>, r: map<string, Json>, s: map<string, Json>, k: string) {
    if k in c then !(k in s && k !in r && s[k] == Null && c[k] == Null) else k in r && k !in s
  }

  /** The merge: cur is what the fields encode today, seen what they encoded when
      the line was read, and what raw had beyond seen is put back. */
  function Graft(cur: Json, raw: Json, seen: Json): Json
    decreases cur
  {
    match cur
    case Obj(c) =>
      if !raw.Obj? || !seen.Obj? then cur
      else
        var (r, s) := (raw.members, seen.members);
        Obj(map k | k in c.Keys + r.Keys && Leaves(c, r, s, k) ::
              if k !in c then r[k] else if k in r && k in s then Graft(c[k], r[k], s[k]) else c[k])
    case Arr(c) =>
      if !raw.Arr? || !seen.Arr? || |raw.items| != |seen.items| then cur
      else Arr(Elements(c, raw.items, seen.items))
    case _ => cur
  }

  /** The first pass: every element that stayed put is settled before any other
      may look for a match. */
  method KeepInPlace(c: seq<Json>, r: seq<Json>, s: seq<Json>, used: array<bool>, done: array<bool>) returns (out: seq<Json>)
    requires |r| == |s| == used.Length && |c| == done.Length && used != done
    requires forall k | 0 <= k < |s| :: !used[k]
    requires forall k | 0 <= k < |c| :: !done[k]
    modifies used, done
    ensures |out| == |c|
    ensures forall k | 0 <= k < |c| :: done[k] == Kept(c, s, k) && out[k] == if Kept(c, s, k) then r[k] else c[k]
    ensures forall k: nat | k < |s| :: used[k] == (k in InPlace(c, s))
  {
    hide Unchanged;
    out := c;
    for i := 0 to |c|
      invariant |out| == |c|
      invariant forall k | 0 <= k < |c| :: done[k] == (k < i && Kept(c, s, k))
      invariant forall k | 0 <= k < |s| :: used[k] == (k < i && Kept(c, s, k))
      invariant forall k | 0 <= k < |c| :: out[k] == if done[k] then r[k] else c[k]
    {
      if i < |s| {
        var same := Still(c[i], s[i]);
        if same {
          used[i], done[i] := true, true;
          out := out[i := r[i]];
        }
      }
    }
  }

  lemma NothingTaken(c: seq<Json>, s: seq<Json>)
    ensures Taken(c, s, 0).1 == InPlace(c, s)
  {}

  lemma TakenStep(c: seq<Json>, s: seq<Json>, i: nat)
    requires i < |c|
    ensures var (t, j) := (Taken(c, s, i + 1), Sole(c[i], s, Taken(c, s, i).1));
            if Kept(c, s, i) then t.0[i] == Some(i) && t.1 == Taken(c, s, i).1
            else t.0[i] == j && t.1 == if j.Some? then Taken(c, s, i).1 + {j.value} else Taken(c, s, i).1
  {
    hide Kept, InPlace, Sole, Unchanged;
  }

  method GraftElements(c: seq<Json>, r: seq<Json>, s: seq<Json>) returns (out: seq<Json>)
    requires |r| == |s|
    ensures out == Elements(c, r, s)
  {
    hide Kept, InPlace, Sole, Unchanged, Taken;
    var used, done := new bool[|s|](_ => false), new bool[|c|](_ => false);
    out := KeepInPlace(c, r, s, used, done);
    GraftedOnce(c, s);
    ghost var whole := Elements(c, r, s);
    NothingTaken(c, s);
    for i := 0 to |c|
      invariant |out| == |c| && forall k | 0 <= k < |c| :: done[k] == Kept(c, s, k)
      invariant forall k: nat | k < |s| :: used[k] == (k in Taken(c, s, i).1)
      invariant forall k | 0 <= k < i :: out[k] == whole[k]
      invariant forall k | i <= k < |c| :: out[k] == if Kept(c, s, k) then r[k] else c[k]
    {
      TakenPrefix(c, s, |c|, i);
      TakenStep(c, s, i);
      if !done[i] {
        var j := SoleUnused(c[i], s, used, Taken(c, s, i).1);
        if j.Some? {
          used[j.value] := true;
          out := out[i := r[j.value]];
        }
      }
    }
  }

  method Still(cv: Json, sv: Json) returns (still: bool)
    ensures still == Unchanged(cv, sv)
  {
    var same, extras := ExtrasOnly(cv, sv);
    return same && !extras;
  }

  method SoleUnused(cv: Json, s: seq<Json>, used: array<bool>, ghost gone: set<nat>) returns (found: Option<nat>)
    requires used.Length == |s| && forall k: nat | k < |s| :: used[k] == (k in gone)
    ensures found == Sole(cv, s, gone)
    ensures found.Some? ==> found.value < |s|
  {
    hide Unchanged, Same, Extras;
    found := None;
    for j := 0 to |s|
      invariant found == None ==> FirstFrom(cv, s, gone, 0) == FirstFrom(cv, s, gone, j)
      invariant found.Some? ==> FirstFrom(cv, s, gone, 0) == found.value < j
      invariant found.Some? ==> FirstFrom(cv, s, gone, found.value + 1) == FirstFrom(cv, s, gone, j)
    {
      if !used[j] {
        var same := Still(cv, s[j]);
        if same {
          if found.Some? {
            return None;
          }
          found := Some(j);
        }
      }
    }
  }

  // ----- reading and writing an untouched line is the identity -----

  /** Equal but for the spelling of numbers. */
  predicate Like(a: Json, b: Json)
    decreases b
  {
    match b
    case Obj(m) => a.Obj? && a.members.Keys == m.Keys && forall k | k in m :: Like(a.members[k], m[k])
    case Arr(s) => a.Arr? && |a.items| == |s| && forall i | 0 <= i < |s| :: Like(a.items[i], s[i])
    case Num(n) => a.Num? && NumSame(a.n, n)
    case _ => a == b
  }

  lemma {:induction false} SameAsItself(j: Json)
    ensures Same(j, j) && !Extras(j, j) && Like(j, j)
  {
    match j
    case Obj(m) =>
      forall k | k in m ensures Same(m[k], m[k]) && !Extras(m[k], m[k]) && Like(m[k], m[k]) {
        SameAsItself(m[k]);
      }
    case Arr(s) =>
      forall i | 0 <= i < |s| ensures Same(s[i], s[i]) && !Extras(s[i], s[i]) && Like(s[i], s[i]) {
        SameAsItself(s[i]);
      }
    case _ =>
  }

  /** What the caller left as it was read is written back as it was read. */
  lemma {:induction false} UntouchedRoundTrip(raw: Json, seen: Json)
    requires Same(raw, seen)
    ensures Like(Graft(seen, raw, seen), raw)
    decreases seen
  {
    match seen
    case Obj(s) =>
      var (r, out) := (raw.members, Graft(seen, raw, seen).members);
      forall k | k in r ensures k in out && Like(out[k], r[k]) {
        if k in s {
          UntouchedRoundTrip(r[k], s[k]);
        } else {
          SameAsItself(r[k]);
        }
      }
    case Arr(s) =>
      InPlaceAll(s);
      forall i | 0 <= i < |s| ensures Like(Graft(seen, raw, seen).items[i], raw.items[i]) {
        SameAsItself(raw.items[i]);
      }
    case Num(n) => assert NumSame(n, raw.n);
    case _ =>
  }

  lemma InPlaceAll(s: seq<Json>)
    ensures forall i | 0 <= i < |s| :: Matches(s, s)[i] == Some(i)
  {
    forall i | 0 <= i < |s| ensures Kept(s, s, i) {
      SameAsItself(s[i]);
    }
    GraftedOnce(s, s);
  }

  // ----- the caller's changes win -----

  predicate IsDigit(c: char) {
    '0' <= c <= '9'
  }

  /** The value of a string of digits. */
  function Magnitude(s: string): Option<nat> {
    if s == "" then Some(0)
    else
      var (n, c) := (|s| - 1, s[|s| - 1]);
      if !IsDigit(c) then None
      else match Magnitude(s[..n]) case None => None case Some(m) => Some(10 * m + (c as int - '0' as int))
  }

  /** A number spelled as an integer, when an int64 holds it. */
  function Int64Of(text: string): Option<Int64> {
    var digits := if text != "" && text[0] == '-' then text[1..] else text;
    if digits == "" then None
    else
      match Magnitude(digits)
      case None => None
      case Some(m) =>
        var i: int := if digits == text then m else 0 - m;
        if -0x8000_0000_0000_0000 <= i < 0x8000_0000_0000_0000 then Some(i) else None
  }

  function Digits(n: nat): (s: string)
    ensures s != ""
  {
    (if n < 10 then "" else Digits(n / 10)) + [(n % 10 + '0' as int) as char]
  }

  /** The spelling of an integer. */
  function Decimal(i: Int64): string {
    if i < 0 then "-" + Digits(0 - i as int) else Digits(i)
  }

  lemma {:induction false} DigitsBack(n: nat)
    ensures Magnitude(Digits(n)) == Some(n) && IsDigit(Digits(n)[0])
  {
    var (s, c) := (Digits(n), (n % 10 + '0' as int) as char);
    if n < 10 {
      assert s == [c] && s[..0] == "";
    } else {
      DigitsBack(n / 10);
      assert s[..|s| - 1] == Digits(n / 10);
    }
  }

  lemma DecimalBack(i: Int64)
    ensures Int64Of(Decimal(i)) == Some(i)
  {
    hide Digits, Magnitude;
    if i < 0 {
      DigitsBack(0 - i as int);
      assert Decimal(i)[1..] == Digits(0 - i as int);
    } else {
      DigitsBack(i);
    }
  }

  /** The text read as the two readers read it, float being the second; an
      integer reads the same however it is spelled. */
  ghost predicate WellRead(float: string -> Option<real>, n: Number) {
    && n.int64 == Int64Of(n.text)
    && n.float == float(n.text)
    && (n.int64.Some? ==> n.float == float(Decimal(n.int64.value)))
  }

  /** An int64, or a float that at most one int64 rounds to. */
  ghost predicate Settled(float: string -> Option<real>, n: Number) {
    || n.int64.Some? || n.float.None?
    || forall i: Int64, j: Int64 :: float(Decimal(i)) == n.float && float(Decimal(j)) == n.float ==> i == j
  }

  /** Every number in a value is so. */
  ghost predicate Read(float: string -> Option<real>, j: Json) {
    match j
    case Obj(m) => forall k | k in m :: Read(float, m[k])
    case Arr(s) => forall i | 0 <= i < |s| :: Read(float, s[i])
    case Num(n) => WellRead(float, n)
    case _ => true
  }

  ghost predicate AllSettled(float: string -> Option<real>, j: Json) {
    match j
    case Obj(m) => forall k | k in m :: AllSettled(float, m[k])
    case Arr(s) => forall i | 0 <= i < |s| :: AllSettled(float, s[i])
    case Num(n) => Settled(float, n)
    case _ => true
  }

  /** Every number inside an array is so: what stands in no array is never
      matched by its value. */
  ghost predicate ArraysSettled(float: string -> Option<real>, j: Json) {
    match j
    case Obj(m) => forall k | k in m :: ArraysSettled(float, m[k])
    case Arr(s) => forall i | 0 <= i < |s| :: AllSettled(float, s[i])
    case _ => true
  }

  lemma NumJoin(float: string -> Option<real>, r: Number, c: Number, n: Number)
    requires WellRead(float, r) && WellRead(float, c) && WellRead(float, n)
    requires NumSame(r, n) && NumSame(c, n) && Settled(float, n)
    ensures NumSame(r, c)
  {
    hide Int64Of, Decimal;
    if r.int64.Some? && c.int64.Some? && n.int64.None? {
      assert r.float == n.float && c.float == n.float;
      assert float(Decimal(r.int64.value)) == n.float == float(Decimal(c.int64.value));
    }
  }

  lemma {:induction false} SameJoin(float: string -> Option<real>, r: Json, c: Json, s: Json)
    requires Same(r, s) && Unchanged(c, s)
    requires AllSettled(float, s) && Read(float, s) && Read(float, r) && Read(float, c)
    ensures Same(r, c)
    decreases s
  {
    hide WellRead, Settled, NumSame;
    match s
    case Obj(m) =>
      forall k | k in c.members ensures if k in r.members then Same(r.members[k], c.members[k]) else c.members[k] == Null {
        assert k in m && Same(c.members[k], m[k]) && !Extras(c.members[k], m[k]);
        if k in r.members {
          SameJoin(float, r.members[k], c.members[k], m[k]);
        } else {
          assert m[k] == Null;
        }
      }
    case Arr(items) =>
      forall i | 0 <= i < |items| ensures Same(r.items[i], c.items[i]) {
        SameJoin(float, r.items[i], c.items[i], items[i]);
      }
    case Num(n) => NumJoin(float, r.n, c.n, n);
    case _ =>
  }

  /** Whatever the caller made of the fields, the merge still holds all they
      encode: a caller's change wins. */
  lemma {:induction false} CallerWins(float: string -> Option<real>, cur: Json, raw: Json, seen: Json)
    requires Same(raw, seen)
    requires ArraysSettled(float, seen) && Read(float, seen) && Read(float, raw) && Read(float, cur)
    ensures Same(Graft(cur, raw, seen), cur)
    decreases cur
  {
    hide WellRead, Settled, NumSame, AllSettled;
    SameAsItself(cur);
    match cur
    case Obj(c) =>
      if raw.Obj? && seen.Obj? {
        var (r, s, out) := (raw.members, seen.members, Graft(cur, raw, seen).members);
        forall k | k in c ensures if k in out then Same(out[k], c[k]) else c[k] == Null {
          if k in r && k in s {
            CallerWins(float, c[k], r[k], s[k]);
          } else {
            SameAsItself(c[k]);
          }
        }
      }
    case Arr(c) =>
      if raw.Arr? && seen.Arr? && |raw.items| == |seen.items| {
        GraftedOnce(c, seen.items);
        forall i | 0 <= i < |c| ensures Same(Graft(cur, raw, seen).items[i], c[i]) {
          var m := Matches(c, seen.items)[i];
          if m.Some? {
            SameJoin(float, raw.items[m.value], c[i], seen.items[m.value]);
          } else {
            SameAsItself(c[i]);
          }
        }
      }
    case _ =>
  }

  /** A line can hold more of it than the fields do only where an object is. */
  predicate HasObject(j: Json) {
    match j
    case Obj(_) => true
    case Arr(s) => exists i | 0 <= i < |s| :: HasObject(s[i])
    case _ => false
  }

  lemma {:induction false} NoExtras(raw: Json, seen: Json)
    requires Same(raw, seen) && !HasObject(seen)
    ensures !Extras(raw, seen)
    decreases seen
  {
    if seen.Arr? {
      forall i | 0 <= i < |seen.items| ensures !Extras(raw.items[i], seen.items[i]) {
        NoExtras(raw.items[i], seen.items[i]);
      }
    }
  }

  /** A length no key has. */
  lemma {:induction false} LongerThan(keys: set<string>) returns (n: nat)
    ensures forall k | k in keys :: |k| < n
    decreases |keys|
  {
    if keys == {} {
      return 0;
    }
    var k :| k in keys;
    var m := LongerThan(keys - {k});
    n := if |k| < m then m else |k| + 1;
  }

  /** What holds of m, with one member more. */
  lemma WithMember(float: string -> Option<real>, m: map<string, Json>, w: map<string, Json>) returns (key: string)
    requires w.Keys == m.Keys && Same(Obj(w), Obj(m)) && Read(float, Obj(w))
    ensures key !in m
    ensures var r := Obj(w[key := Null]); Read(float, r) && Same(r, Obj(m)) && Extras(r, Obj(m))
  {
    var n := LongerThan(m.Keys);
    key := seq(n, _ => 'x');
    assert key in w[key := Null] && key !in m;
  }

  lemma MemberSet(float: string -> Option<real>, m: map<string, Json>, k: string, v: Json)
    requires k in m && Read(float, Obj(m)) && Read(float, v)
    ensures var w := Obj(m[k := v]);
            Read(float, w) && (Same(v, m[k]) ==> Same(w, Obj(m))) && (Unchanged(v, m[k]) ==> Unchanged(w, Obj(m)))
  {
    forall x | x in m && x != k ensures Unchanged(m[x], m[x]) {
      SameAsItself(m[x]);
    }
  }

  /** Where an object is, a line can hold more. */
  lemma {:induction false} WithExtras(float: string -> Option<real>, seen: Json) returns (r: Json)
    requires HasObject(seen) && Read(float, seen)
    ensures Same(r, seen) && Extras(r, seen) && Read(float, r)
    decreases seen
  {
    match seen
    case Obj(m) =>
      SameAsItself(seen);
      var key := WithMember(float, m, m);
      r := Obj(m[key := Null]);
    case Arr(s) =>
      var i :| 0 <= i < |s| && HasObject(s[i]);
      var one := WithExtras(float, s[i]);
      r := Arr(s[i := one]);
      SameBut(float, s, i, one);
  }

  lemma SameBut(float: string -> Option<real>, s: seq<Json>, i: nat, one: Json)
    requires i < |s| && Read(float, Arr(s)) && Read(float, one) && Same(one, s[i])
    ensures Same(Arr(s[i := one]), Arr(s)) && Read(float, Arr(s[i := one]))
    ensures Extras(Arr(s[i := one]), Arr(s)) <==> Extras(one, s[i])
  {
    var r := Arr(s[i := one]);
    forall k | 0 <= k < |s| ensures Same(r.items[k], s[k]) && (k != i ==> !Extras(r.items[k], s[k])) {
      SameAsItself(s[k]);
    }
    assert r.items[i] == one;
  }

  /** An array with elements i and, when it is another, j as given. */
  lemma SameButTwo(float: string -> Option<real>, s: seq<Json>, i: nat, one: Json, j: nat, two: Json)
    requires i < |s| && j < |s| && i != j && Read(float, Arr(s))
    requires Read(float, one) && Same(one, s[i]) && Read(float, two) && Same(two, s[j]) && Extras(two, s[j])
    ensures var r := Arr(s[i := one][j := two]); Same(r, Arr(s)) && Read(float, r) && Extras(r, Arr(s)) && r.items[i] == one
  {
    var r := Arr(s[i := one][j := two]);
    forall k | 0 <= k < |s| ensures Same(r.items[k], s[k]) {
      SameAsItself(s[k]);
    }
    assert Extras(r.items[j], s[j]);
  }

  /** A line read, and fields as they now are, that are each as an unsettled
      value was but not alike: two integers its number may stand for. */
  lemma {:induction false} Twins(float: string -> Option<real>, seen: Json) returns (r: Json, c: Json)
    requires !AllSettled(float, seen) && Read(float, seen)
    ensures Same(r, seen) && Unchanged(c, seen) && !Same(r, c) && Read(float, r) && Read(float, c)
    ensures HasObject(seen) ==> Extras(r, seen)
    decreases seen
  {
    hide WellRead, Settled, NumSame;
    match seen
    case Obj(m) =>
      var k :| k in m && !AllSettled(float, m[k]);
      var one, other := Twins(float, m[k]);
      r, c := MembersApart(float, m, k, one, other);
      assert !Same(r, c) by {
        assert k in c.members && r.members[k] == one && c.members[k] == other;
      }
      SameAsItself(seen);
    case Arr(s) =>
      var i :| 0 <= i < |s| && !AllSettled(float, s[i]);
      var one, other := Twins(float, s[i]);
      r, c := ItemsApart(float, s, i, one, other);
      assert r.items[i] == one && c.items[i] == other;
    case Num(n) =>
      var one, other := NumTwins(float, n);
      r, c := Num(one), Num(other);
    case _ =>
  }

  lemma NumTwins(float: string -> Option<real>, n: Number) returns (r: Number, c: Number)
    requires !Settled(float, n) && WellRead(float, n)
    ensures WellRead(float, r) && WellRead(float, c) && NumSame(r, n) && NumSame(c, n) && !NumSame(r, c)
  {
    hide Int64Of, Decimal;
    var i: Int64, j: Int64 :| float(Decimal(i)) == n.float && float(Decimal(j)) == n.float && i != j;
    DecimalBack(i);
    DecimalBack(j);
    r, c := Number(Decimal(i), Some(i), n.float), Number(Decimal(j), Some(j), n.float);
  }

  lemma MembersApart(float: string -> Option<real>, m: map<string, Json>, k: string, one: Json, other: Json) returns (r: Json, c: Json)
    requires k in m && Read(float, Obj(m)) && Read(float, one) && Read(float, other) && Same(one, m[k])
    ensures r.Obj? && c.Obj? && k in r.members && r.members[k] == one && c == Obj(m[k := other])
    ensures Same(r, Obj(m)) && Extras(r, Obj(m)) && Read(float, r) && Read(float, c)
    ensures Unchanged(other, m[k]) ==> Unchanged(c, Obj(m))
  {
    hide Read, Same, Extras;
    MemberSet(float, m, k, one);
    MemberSet(float, m, k, other);
    var key := WithMember(float, m, m[k := one]);
    r, c := Obj(m[k := one][key := Null]), Obj(m[k := other]);
  }

  lemma ItemsApart(float: string -> Option<real>, s: seq<Json>, i: nat, one: Json, other: Json) returns (r: Json, c: Json)
    requires i < |s| && Read(float, Arr(s)) && Read(float, one) && Read(float, other)
    requires Same(one, s[i]) && Unchanged(other, s[i]) && (HasObject(s[i]) ==> Extras(one, s[i]))
    ensures r.Arr? && |r.items| == |s| && r.items[i] == one && c == Arr(s[i := other])
    ensures Same(r, Arr(s)) && Unchanged(c, Arr(s)) && Read(float, r) && Read(float, c)
    ensures HasObject(Arr(s)) ==> Extras(r, Arr(s))
  {
    hide Same, Extras, Read;
    r, c := Arr(s[i := one]), Arr(s[i := other]);
    SameBut(float, s, i, one);
    SameBut(float, s, i, other);
    if HasObject(Arr(s)) && !HasObject(s[i]) {
      var j :| 0 <= j < |s| && HasObject(s[j]);
      assert Read(float, s[j]) by { ItemRead(float, s, j); }
      var two := WithExtras(float, s[j]);
      r := Arr(s[i := one][j := two]);
      SameButTwo(float, s, i, one, j, two);
    }
  }

  lemma ItemRead(float: string -> Option<real>, s: seq<Json>, j: nat)
    requires j < |s| && Read(float, Arr(s))
    ensures Read(float, s[j])
  {}

  /** A line read and a change the merge takes back. */
  lemma {:induction false} TakenBack(float: string -> Option<real>, seen: Json) returns (raw: Json, cur: Json)
    requires !ArraysSettled(float, seen) && Read(float, seen)
    ensures Same(raw, seen) && Read(float, raw) && Read(float, cur) && (HasObject(seen) ==> Extras(raw, seen))
    ensures !Same(Graft(cur, raw, seen), cur)
    decreases seen
  {
    match seen
    case Obj(m) =>
      var k :| k in m && !ArraysSettled(float, m[k]);
      var one, other := TakenBack(float, m[k]);
      raw, cur := MembersApart(float, m, k, one, other);
      assert k in cur.members && cur.members[k] == other;
      assert Leaves(cur.members, raw.members, m, k);
      assert Graft(cur, raw, seen).members[k] == Graft(other, one, m[k]);
    case Arr(s) =>
      var i :| 0 <= i < |s| && !AllSettled(float, s[i]);
      var one, other := Twins(float, s[i]);
      raw, cur := ItemsApart(float, s, i, one, other);
      assert cur.items[i] == other && Kept(cur.items, s, i);
      GraftedOnce(cur.items, s);
      assert Graft(cur, raw, seen).items[i] == one;
    case _ =>
  }

  /** Of fields that encoded seen at read, every change wins. */
  ghost predicate Wins(float: string -> Option<real>, seen: Json) {
    forall raw, cur | Same(raw, seen) && Read(float, raw) && Read(float, cur) :: Same(Graft(cur, raw, seen), cur)
  }

  /** The caller's changes all win exactly when no number inside an array is
      a float that two int64s round to. */
  lemma WinsExactly(float: string -> Option<real>, seen: Json)
    requires Read(float, seen)
    ensures Wins(float, seen) <==> ArraysSettled(float, seen)
  {
    hide Same, Read, Graft, ArraysSettled;
    if ArraysSettled(float, seen) {
      forall raw, cur | Same(raw, seen) && Read(float, raw) && Read(float, cur) ensures Same(Graft(cur, raw, seen), cur) {
        CallerWins(float, cur, raw, seen);
      }
    } else {
      var raw, cur := TakenBack(float, seen);
    }
  }

  // ----- the members of an entry -----

  /** What a reader kept of one member: raw as the line held it, seen as the
      fields encoded it, either absent. */
  datatype KeptMember = KeptMember(raw: Option<Json>, seen: Option<Json>)

  predicate IsZero(v: Json) {
    match v
    case Null => true
    case Bool(b) => !b
    case Num(n) => n.float == Some(0.0)
    case Str(s) => s == ""
    case Arr(items) => items == []
    case Obj(m) => m == map[]
  }

  predicate Remembered(all: map<string, Json>, typed: map<string, Json>, k: string) {
    if k in all && k in typed then all[k] != typed[k] && Same(all[k], typed[k]) && Extras(all[k], typed[k])
    else if k in all then IsZero(all[k])
    else k in typed && typed[k] == Null
  }

  /** The members remembered of a line, beside what the fields encode of it. */
  function Remember(all: map<string, Json>, typed: map<string, Json>): map<string, KeptMember> {
    map k | k in all.Keys + typed.Keys && Remembered(all, typed, k) ::
      KeptMember(if k in all then Some(all[k]) else None, if k in typed then Some(typed[k]) else None)
  }

  /** One kept member grafted back onto the encoded entry. */
  function RestoredOne(out: map<string, Json>, key: string, k: KeptMember): map<string, Json> {
    if k.raw.None? then
      if key in out && Some(out[key]) == k.seen then out - {key} else out
    else if k.seen.None? then
      if key in out then out else out[key := k.raw.value]
    else if key !in out then out
    else if out[key] == k.seen.value then out[key := k.raw.value]
    else out[key := Graft(out[key], k.raw.value, k.seen.value)]
  }

  /** The member an entry has at key once all are grafted back. */
  function RestoredAt(out: map<string, Json>, kept: map<string, KeptMember>, key: string): Option<Json> {
    At(if key in kept then RestoredOne(out, key, kept[key]) else out, key)
  }

  function At(m: map<string, Json>, key: string): Option<Json> {
    if key in m then Some(m[key]) else None
  }

  /** Grafting one member back reads and writes that member alone. */
  lemma OneAtATime(a: map<string, Json>, b: map<string, Json>, key: string, k: KeptMember)
    requires At(a, key) == At(b, key)
    ensures At(RestoredOne(a, key, k), key) == At(RestoredOne(b, key, k), key)
    ensures forall other | other != key :: At(RestoredOne(a, key, k), other) == At(a, other)
  {
    hide Graft;
  }

  /** The loop over the kept members: their order does not matter. */
  method RestoreKept(out: map<string, Json>, kept: map<string, KeptMember>) returns (members: map<string, Json>)
    ensures forall key :: RestoredAt(out, kept, key) == At(members, key)
  {
    hide RestoredOne, At;
    members := out;
    var left := kept.Keys;
    while left != {}
      invariant left <= kept.Keys
      invariant forall key | key in left || key !in kept :: At(members, key) == At(out, key)
      invariant forall key | key in kept && key !in left :: At(members, key) == RestoredAt(out, kept, key)
      decreases |left|
    {
      var key :| key in left;
      left := left - {key};
      OneAtATime(members, out, key, kept[key]);
      members := RestoredOne(members, key, kept[key]);
    }
  }

  lemma {:induction false} UnchangedLike(raw: Json, seen: Json)
    requires Unchanged(raw, seen)
    ensures Like(seen, raw)
    decreases seen
  {
    match seen
    case Obj(s) =>
      forall k | k in s ensures k in raw.members && Like(s[k], raw.members[k]) {
        UnchangedLike(raw.members[k], s[k]);
      }
    case Arr(s) =>
      forall i | 0 <= i < |s| ensures Like(s[i], raw.items[i]) {
        UnchangedLike(raw.items[i], s[i]);
      }
    case _ =>
  }

  /** The fields encode a line but for extras, zero values they leave out and
      nulls they add. */
  predicate Encodes(all: map<string, Json>, typed: map<string, Json>) {
    && (forall k | k in all :: if k in typed then Same(all[k], typed[k]) else IsZero(all[k]))
    && (forall k | k in typed && k !in all :: typed[k] == Null)
  }

  /** An entry not touched writes its line back, member by member. */
  lemma RestoreRoundTrip(all: map<string, Json>, typed: map<string, Json>, key: string)
    requires Encodes(all, typed)
    ensures RestoredAt(typed, Remember(all, typed), key).Some? <==> key in all
    ensures key in all ==> Like(RestoredAt(typed, Remember(all, typed), key).value, all[key])
  {
    if key in all {
      SameAsItself(all[key]);
      if key in typed && !Extras(all[key], typed[key]) {
        UnchangedLike(all[key], typed[key]);
      }
    }
  }

  /** The member a caller set is there with its value, extras aside, but for
      a null the fields add. */
  ghost predicate Stands(all: map<string, Json>, typed: map<string, Json>, cur: map<string, Json>, key: string)
    requires key in cur
  {
    match RestoredAt(cur, Remember(all, typed), key)
    case Some(v) => Same(v, cur[key])
    case None => cur[key] == Null
  }

  /** No change to the member is taken back: a number in an array may be, but
      only in a member a line can hold more of. */
  ghost predicate Safe(float: string -> Option<real>, typed: map<string, Json>, key: string) {
    key in typed ==> ArraysSettled(float, typed[key]) || !HasObject(typed[key])
  }

  lemma RestoreCallerWins(float: string -> Option<real>, all: map<string, Json>, typed: map<string, Json>, cur: map<string, Json>, key: string)
    requires key in cur && Read(float, cur[key]) && Safe(float, typed, key)
    requires key in typed ==> Read(float, typed[key])
    requires key in all ==> Read(float, all[key])
    ensures Stands(all, typed, cur, key)
  {
    hide Graft, ArraysSettled, Read, HasObject;
    SameAsItself(cur[key]);
    if key in all && key in typed && Remembered(all, typed, key) {
      if HasObject(typed[key]) {
        CallerWins(float, cur[key], all[key], typed[key]);
      } else {
        NoExtras(all[key], typed[key]);
      }
    }
  }

  ghost predicate AlwaysStands(float: string -> Option<real>, typed: map<string, Json>, key: string) {
    forall all, cur | key in cur && Read(float, cur[key]) && (key in all ==> Read(float, all[key])) :: Stands(all, typed, cur, key)
  }

  /** Whatever the line held and the caller set, the member stands: exactly
      when it is safe. */
  lemma RestoreWinsExactly(float: string -> Option<real>, typed: map<string, Json>, key: string)
    requires key in typed ==> Read(float, typed[key])
    ensures AlwaysStands(float, typed, key) <==> Safe(float, typed, key)
  {
    hide Graft, ArraysSettled, Read, HasObject, Stands;
    if Safe(float, typed, key) {
      forall all, cur | key in cur && Read(float, cur[key]) && (key in all ==> Read(float, all[key])) ensures Stands(all, typed, cur, key) {
        RestoreCallerWins(float, all, typed, cur, key);
      }
    } else {
      var raw, now := TakenBack(float, typed[key]);
      var (all, cur) := (map[key := raw], map[key := now]);
      GraftedAt(all, typed, cur, key);
      assert !Stands(all, typed, cur, key);
    }
  }

  lemma {:induction false} UntouchedWins(raw: Json, seen: Json)
    requires Same(raw, seen)
    ensures Same(Graft(seen, raw, seen), seen)
    decreases seen
  {
    SameAsItself(seen);
    match seen
    case Obj(s) =>
      var (r, out) := (raw.members, Graft(seen, raw, seen).members);
      forall k | k in s ensures if k in out then Same(out[k], s[k]) else s[k] == Null {
        if k in r {
          UntouchedWins(r[k], s[k]);
        }
      }
    case Arr(s) =>
      InPlaceAll(s);
      assert forall i | 0 <= i < |s| :: Graft(seen, raw, seen).items[i] == raw.items[i];
    case _ =>
  }

  lemma GraftedAt(all: map<string, Json>, typed: map<string, Json>, cur: map<string, Json>, key: string)
    requires key in all && key in typed && key in cur && Same(all[key], typed[key]) && Extras(all[key], typed[key])
    requires !Same(Graft(cur[key], all[key], typed[key]), cur[key])
    ensures !Stands(all, typed, cur, key)
  {
    hide Graft;
    SameAsItself(typed[key]);
    if cur[key] == typed[key] {
      UntouchedWins(all[key], typed[key]);
    }
  }
}
