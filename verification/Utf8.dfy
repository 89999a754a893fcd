/** Text repair: whatever is not UTF-8 is cut into maximal subparts, and each
    gives way to a single U+FFFD (section 3.9 of the Unicode Standard). */
module Utf8 {

  type Byte = b: int | 0 <= b < 256

  /** U+FFFD, encoded. */
  const REPLACEMENT: seq<Byte> := [0xEF, 0xBF, 0xBD]

  /** The bytes that follow a lead byte, and the range of the first of them. */
  function Need(c: Byte): nat {
    if 0xC2 <= c <= 0xDF then 1
    else if 0xE0 <= c <= 0xEF then 2
    else if 0xF0 <= c <= 0xF4 then 3
    else 0
  }

  function Low(c: Byte): Byte {
    if c == 0xE0 then 0xA0 else if c == 0xF0 then 0x90 else 0x80
  }

  function High(c: Byte): Byte {
    if c == 0xED then 0x9F else if c == 0xF4 then 0x8F else 0xBF
  }

  predicate Follows(c: Byte, k: nat, b: Byte) {
    if k == 1 then Low(c) <= b <= High(c) else 0x80 <= b <= 0xBF
  }

  /** s is one character, as Table 3-7 of the Unicode Standard lists them. */
  predicate Character(s: seq<Byte>) {
    && s != []
    && (if s[0] < 0x80 then |s| == 1
        else Need(s[0]) > 0 && |s| == Need(s[0]) + 1 && forall k | 1 <= k < |s| :: Follows(s[0], k, s[k]))
  }

  /** The length of the character s opens with, or 0 when it opens with none:
      what the library's decoder reports. */
  function CharacterAt(s: seq<Byte>): (n: nat)
    ensures n <= |s|
  {
    if s == [] then 0
    else
      var n := if s[0] < 0x80 then 1 else Need(s[0]) + 1;
      if n <= |s| && Character(s[..n]) then n else 0
  }

  ghost predicate WellFormed(s: seq<Byte>) {
    s == [] || (CharacterAt(s) > 0 && WellFormed(s[CharacterAt(s)..]))
  }

  /** A value of at most 21 bits, encoded; a surrogate as U+FFFD. */
  function Encode(u: nat): seq<Byte>
    requires u < 0x11_0000
  {
    if u < 0x80 then [u]
    else if u < 0x800 then [0xC0 + u / 64, 0x80 + u % 64]
    else if 0xD800 <= u < 0xE000 then REPLACEMENT
    else if u < 0x1_0000 then [0xE0 + u / 4096, 0x80 + u / 64 % 64, 0x80 + u % 64]
    else [0xF0 + u / 0x4_0000, 0x80 + u / 4096 % 64, 0x80 + u / 64 % 64, 0x80 + u % 64]
  }

  // ----- maximal subparts -----

  /** The first k bytes after the lead may follow it. */
  predicate FollowsTo(s: seq<Byte>, k: nat)
    requires 0 < k <= |s|
  {
    forall j | 1 <= j < k :: Follows(s[0], j, s[j])
  }

  method MaximalSubpart(s: seq<Byte>) returns (n: nat)
    requires s != []
    ensures n == Subpart(s)
  {
    var c := s[0];
    var need := 0;
    var lo, hi := 0x80, 0xBF;
    if 0xC2 <= c <= 0xDF {
      need := 1;
    } else if c == 0xE0 {
      need, lo := 2, 0xA0;
    } else if 0xE1 <= c <= 0xEC || c == 0xEE || c == 0xEF {
      need := 2;
    } else if c == 0xED {
      need, hi := 2, 0x9F;
    } else if c == 0xF0 {
      need, lo := 3, 0x90;
    } else if 0xF1 <= c <= 0xF3 {
      need := 3;
    } else if c == 0xF4 {
      need, hi := 3, 0x8F;
    } else {
      return 1;
    }
    var i := 1;
    while i <= need && i < |s|
      invariant 1 <= i <= need + 1 && i <= |s| && FollowsTo(s, i)
      invariant i == 1 ==> lo == Low(c) && hi == High(c)
      invariant i > 1 ==> lo == 0x80 && hi == 0xBF
      invariant Subpart(s) == SubpartFrom(s, i)
    {
      if s[i] < lo || s[i] > hi {
        return i;
      }
      lo, hi := 0x80, 0xBF;
      i := i + 1;
    }
    return i;
  }

  function SubpartFrom(s: seq<Byte>, i: nat): (n: nat)
    requires 1 <= i <= |s|
    ensures i <= n <= |s|
    decreases |s| - i
  {
    if i < |s| && i <= Need(s[0]) && Follows(s[0], i, s[i]) then SubpartFrom(s, i + 1) else i
  }

  function Subpart(s: seq<Byte>): (n: nat)
    requires s != []
    ensures 1 <= n <= |s|
  {
    SubpartFrom(s, 1)
  }

  /** p begins a character. */
  ghost predicate Begins(p: seq<Byte>) {
    exists q :: Character(p + q)
  }

  lemma BeginsFollows(p: seq<Byte>)
    requires p != [] && Begins(p)
    ensures p[0] >= 0x80 ==> |p| <= Need(p[0]) + 1 && FollowsTo(p, |p|)
    ensures p[0] < 0x80 ==> |p| == 1
  {
    var q :| Character(p + q);
    assert (p + q)[0] == p[0];
    forall j | 1 <= j < |p| && p[0] >= 0x80 ensures Follows(p[0], j, p[j]) {
      assert (p + q)[j] == p[j];
    }
  }

  lemma FollowsBegins(p: seq<Byte>)
    requires p != [] && 0 < Need(p[0]) && |p| <= Need(p[0]) + 1 && FollowsTo(p, |p|)
    ensures Begins(p)
    decreases Need(p[0]) + 1 - |p|
  {
    if |p| == Need(p[0]) + 1 {
      assert p + [] == p;
      assert Character(p + []);
    } else {
      var more := p + [Low(p[0])];
      FollowsBegins(more);
      var q :| Character(more + q);
      assert more + q == p + ([Low(p[0])] + q);
      assert Character(p + ([Low(p[0])] + q));
    }
  }

  lemma {:induction false} SubpartFromIs(s: seq<Byte>, i: nat)
    requires 1 <= i <= |s| && FollowsTo(s, i) && i <= Need(s[0]) + 1
    ensures var n := SubpartFrom(s, i);
            FollowsTo(s, n) && n <= Need(s[0]) + 1 && (n < |s| && n <= Need(s[0]) ==> !Follows(s[0], n, s[n]))
    decreases |s| - i
  {
    if i < |s| && i <= Need(s[0]) && Follows(s[0], i, s[i]) {
      SubpartFromIs(s, i + 1);
    }
  }

  /** Where no character stands, the subpart replaced is the longest prefix
      that begins one, or one byte when none does. */
  lemma SubpartIsMaximal(s: seq<Byte>)
    requires s != [] && CharacterAt(s) == 0
    ensures Subpart(s) == 1 || Begins(s[..Subpart(s)])
    ensures forall m | Subpart(s) < m <= |s| :: !Begins(s[..m])
  {
    var n := Subpart(s);
    SubpartFromIs(s, 1);
    if n > 1 {
      FollowsBegins(s[..n]);
    }
    forall m | n < m <= |s| ensures !Begins(s[..m]) {
      if Begins(s[..m]) {
        BeginsFollows(s[..m]);
      }
    }
  }

  // ----- the repair -----

  /** One step of the repair: how much is read, and what is written. */
  function ReadAt(s: seq<Byte>): (n: nat)
    requires s != []
    ensures 0 < n <= |s|
  {
    if CharacterAt(s) > 0 then CharacterAt(s) else Subpart(s)
  }

  function WriteAt(s: seq<Byte>): seq<Byte>
    requires s != []
  {
    if CharacterAt(s) > 0 then s[..CharacterAt(s)] else REPLACEMENT
  }

  function Repaired(s: seq<Byte>): seq<Byte> {
    if s == [] then [] else WriteAt(s) + Repaired(s[ReadAt(s)..])
  }

  method ReplaceInvalidUTF8(s: seq<Byte>) returns (out: seq<Byte>)
    ensures out == Repaired(s)
  {
    hide Character, CharacterAt, Subpart;
    out := [];
    var rest := s;
    while rest != []
      invariant out + Repaired(rest) == Repaired(s)
      decreases |rest|
    {
      assert out + (WriteAt(rest) + Repaired(rest[ReadAt(rest)..])) == out + WriteAt(rest) + Repaired(rest[ReadAt(rest)..]);
      var size := CharacterAt(rest);
      if size > 0 {
        out := out + rest[..size];
        rest := rest[size..];
        continue;
      }
      out := out + REPLACEMENT;
      var n := MaximalSubpart(rest);
      rest := rest[n..];
    }
  }

  lemma CharacterFirst(c: seq<Byte>, rest: seq<Byte>)
    requires Character(c)
    ensures CharacterAt(c + rest) == |c| && (c + rest)[|c|..] == rest
  {
    assert (c + rest)[..|c|] == c;
  }

  /** What comes out is well formed. */
  lemma {:induction false} RepairedWellFormed(s: seq<Byte>)
    ensures WellFormed(Repaired(s))
    decreases |s|
  {
    if s != [] {
      hide Character, CharacterAt, Subpart;
      RepairedWellFormed(s[ReadAt(s)..]);
      WritesCharacter(s);
      CharacterFirst(WriteAt(s), Repaired(s[ReadAt(s)..]));
    }
  }

  lemma WritesCharacter(s: seq<Byte>)
    requires s != []
    ensures Character(WriteAt(s)) && WriteAt(s) != []
  {}

  /** Well-formed text is left as it is, and only that. */
  lemma {:induction false} RepairedSame(s: seq<Byte>)
    ensures Repaired(s) == s <==> WellFormed(s)
    decreases |s|
  {
    if WellFormed(s) && s != [] {
      var n := CharacterAt(s);
      RepairedSame(s[n..]);
      assert s == s[..n] + s[n..];
    } else if Repaired(s) == s {
      RepairedWellFormed(s);
    }
  }

  // ----- piece by piece -----

  function Pieces(s: seq<Byte>): seq<seq<Byte>> {
    if s == [] then [] else [s[..ReadAt(s)]] + Pieces(s[ReadAt(s)..])
  }

  function Concat(ps: seq<seq<Byte>>): seq<Byte> {
    if ps == [] then [] else ps[0] + Concat(ps[1..])
  }

  function Mended(ps: seq<seq<Byte>>): seq<Byte> {
    if ps == [] then [] else (if Character(ps[0]) then ps[0] else REPLACEMENT) + Mended(ps[1..])
  }

  lemma {:induction false} PiecesJoin(s: seq<Byte>)
    ensures Concat(Pieces(s)) == s
    decreases |s|
  {
    if s != [] {
      hide ReadAt;
      var n := ReadAt(s);
      PiecesJoin(s[n..]);
      assert Pieces(s) == [s[..n]] + Pieces(s[n..]);
      assert s == s[..n] + s[n..];
    }
  }

  /** The text splits into characters and maximal subparts; the repair writes
      the characters as they are and one U+FFFD for each subpart. */
  lemma {:induction false} OneForEach(s: seq<Byte>)
    ensures Concat(Pieces(s)) == s
    ensures Repaired(s) == Mended(Pieces(s))
    ensures forall p | p in Pieces(s) :: Character(p) || (p != [] && (|p| == 1 || Begins(p)))
    decreases |s|
  {
    PiecesJoin(s);
    if s != [] {
      hide Character, ReadAt, WriteAt, Begins, Concat;
      var n := ReadAt(s);
      OneForEach(s[n..]);
      PieceFirst(s);
      assert Pieces(s) == [s[..n]] + Pieces(s[n..]);
      assert Mended(Pieces(s)) == WriteAt(s) + Mended(Pieces(s[n..]));
    }
  }

  lemma PieceFirst(s: seq<Byte>)
    requires s != []
    ensures var p := s[..ReadAt(s)];
            && p != []
            && (Character(p) ==> WriteAt(s) == p)
            && (!Character(p) ==> WriteAt(s) == REPLACEMENT && (|p| == 1 || Begins(p)))
  {
    if CharacterAt(s) == 0 {
      SubpartIsMaximal(s);
      NoCharacter(s, ReadAt(s));
    }
  }

  lemma NoCharacter(s: seq<Byte>, n: nat)
    requires CharacterAt(s) == 0 && n <= |s|
    ensures !Character(s[..n])
  {
    assert s == s[..n] + s[n..];
    if Character(s[..n]) {
      CharacterFirst(s[..n], s[n..]);
    }
  }
}
