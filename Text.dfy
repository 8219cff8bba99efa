/**
 * The few java.lang.String operations the core relies on, over `seq<char>`.
 * Case mapping covers the ASCII letters only.
 */
module Text {

  /**
   * Lower-case of one character (ASCII letters only): the result is never an
   * upper-case letter, an upper-case letter becomes the lower-case letter at the
   * same place in the alphabet, and every other character is kept.
   */
  function LowerChar(c: char): (r: char)
    ensures !('A' <= r <= 'Z')
    ensures 'A' <= c <= 'Z' ==> 'a' <= r <= 'z' && r as int - 'a' as int == c as int - 'A' as int
    ensures !('A' <= c <= 'Z') ==> r == c
  {
    if 'A' <= c <= 'Z' then (c as int + 32) as char else c
  }

  /** `toLowerCase`: every character lowered, the length kept. */
  function ToLowerCase(s: string): (r: string)
    ensures |r| == |s|
    ensures forall i :: 0 <= i < |s| ==> r[i] == LowerChar(s[i])
  {
    if s == [] then [] else [LowerChar(s[0])] + ToLowerCase(s[1..])
  }

  /** Lower-casing a string that is already lower-case changes nothing. */
  lemma {:induction false} ToLowerCaseIdempotent(s: string)
    ensures ToLowerCase(ToLowerCase(s)) == ToLowerCase(s)
  {
    if s != [] {
      ToLowerCaseIdempotent(s[1..]);
      assert ToLowerCase(s)[1..] == ToLowerCase(s[1..]);
    }
  }

  /** A string without upper-case letters is its own lower-case. */
  lemma LowerCaseUnchanged(s: string)
    requires forall i :: 0 <= i < |s| ==> !('A' <= s[i] <= 'Z')
    ensures ToLowerCase(s) == s
  {
    assert forall i :: 0 <= i < |s| ==> ToLowerCase(s)[i] == s[i];
  }

  /** `equalsIgnoreCase`: same length, and the characters agree after lowering. */
  function EqualsIgnoreCase(a: string, b: string): (r: bool)
    ensures r <==> ToLowerCase(a) == ToLowerCase(b)
  {
    |a| == |b| && forall i :: 0 <= i < |a| ==> LowerChar(a[i]) == LowerChar(b[i])
  }

  /** `startsWith`: `s` is `prefix` followed by something. */
  function StartsWith(s: string, prefix: string): (r: bool)
    ensures r <==> exists rest :: s == prefix + rest
  {
    if |prefix| <= |s| && s[..|prefix|] == prefix then
      assert s == prefix + s[|prefix|..];
      true
    else
      false
  }

  /** `contains`: `sub` occurs at some index of `s`. */
  function Contains(s: string, sub: string): (r: bool)
    decreases |s|
  {
    |sub| <= |s| && (s[..|sub|] == sub || (s != [] && Contains(s[1..], sub)))
  }

  /** `sub` occurs in `s` starting at index k. */
  predicate OccursAt(s: string, sub: string, k: int)
  {
    0 <= k && k + |sub| <= |s| && s[k..k + |sub|] == sub
  }

  /** `contains` holds exactly when `sub` occurs at some index of `s`. */
  lemma {:induction false} ContainsMeansOccurs(s: string, sub: string)
    ensures Contains(s, sub) <==> exists k :: OccursAt(s, sub, k)
    decreases |s|
  {
    if |sub| <= |s| && s[..|sub|] == sub {
      assert OccursAt(s, sub, 0);
    } else if |sub| <= |s| && s != [] {
      ContainsMeansOccurs(s[1..], sub);
      if exists k :: OccursAt(s, sub, k) {
        var k :| OccursAt(s, sub, k);
        assert k != 0;
        assert s[1..][k - 1..k - 1 + |sub|] == s[k..k + |sub|];
        assert OccursAt(s[1..], sub, k - 1);
      }
      if Contains(s[1..], sub) {
        var k :| OccursAt(s[1..], sub, k);
        assert s[1..][k..k + |sub|] == s[k + 1..k + 1 + |sub|];
        assert OccursAt(s, sub, k + 1);
      }
    }
  }

  /** A string cannot contain a pattern whose first character it lacks. */
  lemma {:induction false} NotContainsWithoutFirstChar(s: string, sub: string)
    requires sub != [] && sub[0] !in s
    ensures !Contains(s, sub)
    decreases |s|
  {
    if |sub| <= |s| {
      assert s[..|sub|][0] == s[0];
      NotContainsWithoutFirstChar(s[1..], sub);
    }
  }

  /** The pieces between the '.' characters: a string with k dots has k + 1 pieces. */
  function DotPieces(s: string): (r: seq<string>)
    ensures |r| >= 1
    ensures |r| == 1 <==> '.' !in s
    ensures forall i :: 0 <= i < |r| ==> '.' !in r[i]
  {
    if s == [] then [""]
    else
      var rest := DotPieces(s[1..]);
      if s[0] == '.' then [""] + rest
      else [[s[0]] + rest[0]] + rest[1..]
  }

  /** A string without a dot is a single piece. */
  lemma {:induction false} DotPiecesWithoutDot(a: string)
    requires '.' !in a
    ensures DotPieces(a) == [a]
  {
    if a != [] {
      DotPiecesWithoutDot(a[1..]);
      assert [a[0]] + a[1..] == a;
    }
  }

  /** Joining a dot-free piece to the rest with a dot puts it in front of the rest's pieces. */
  lemma {:induction false} DotPiecesOfJoin(a: string, b: string)
    requires '.' !in a
    ensures DotPieces(a + "." + b) == [a] + DotPieces(b)
  {
    if a == [] {
      assert a + "." + b == "." + b;
      assert ("." + b)[1..] == b;
    } else {
      DotPiecesOfJoin(a[1..], b);
      assert (a + "." + b)[1..] == a[1..] + "." + b;
      assert [a[0]] + a[1..] == a;
    }
  }

  /** The pieces joined back together with a dot between neighbours. */
  function JoinDots(pieces: seq<string>): string
  {
    if pieces == [] then ""
    else if |pieces| == 1 then pieces[0]
    else pieces[0] + "." + JoinDots(pieces[1..])
  }

  /** Joining the pieces of a string gives back the string. */
  lemma {:induction false} JoinDotPieces(s: string)
    ensures JoinDots(DotPieces(s)) == s
  {
    if s != [] {
      var rest := DotPieces(s[1..]);
      JoinDotPieces(s[1..]);
      if s[0] == '.' {
        JoinDotsFront("", rest);
      } else {
        JoinDotsExtendFirst(s[0], rest);
      }
      assert [s[0]] + s[1..] == s;
    }
  }

  /** A piece put in front of a non-empty list is joined to it with a dot. */
  lemma JoinDotsFront(piece: string, rest: seq<string>)
    requires rest != []
    ensures JoinDots([piece] + rest) == piece + "." + JoinDots(rest)
  {
    assert ([piece] + rest)[1..] == rest;
  }

  /** A character put in front of the first piece comes first in the joined string. */
  lemma JoinDotsExtendFirst(c: char, pieces: seq<string>)
    requires pieces != []
    ensures JoinDots([[c] + pieces[0]] + pieces[1..]) == [c] + JoinDots(pieces)
  {
    if |pieces| > 1 {
      JoinDotsFront([c] + pieces[0], pieces[1..]);
    }
  }

  /** Splitting a non-empty list of dot-free pieces joined with dots gives back the pieces. */
  lemma {:induction false} DotPiecesOfJoinDots(pieces: seq<string>)
    requires pieces != [] && forall i :: 0 <= i < |pieces| ==> '.' !in pieces[i]
    ensures DotPieces(JoinDots(pieces)) == pieces
  {
    if |pieces| == 1 {
      DotPiecesWithoutDot(pieces[0]);
    } else {
      DotPiecesOfJoinDots(pieces[1..]);
      DotPiecesOfJoin(pieces[0], JoinDots(pieces[1..]));
      assert [pieces[0]] + pieces[1..] == pieces;
    }
  }

  /** `count` empty pieces: all of them are dropped as trailing empties. */
  function Empties(count: nat): (r: seq<string>)
    ensures |r| == count && forall i :: 0 <= i < count ==> r[i] == ""
    ensures DropTrailingEmpty(r) == []
  {
    if count == 0 then []
    else
      var r := Empties(count - 1) + [""];
      assert r[..count - 1] == Empties(count - 1);
      r
  }

  /** Drops the empty strings at the end of a list of pieces. */
  function DropTrailingEmpty(pieces: seq<string>): (r: seq<string>)
    ensures |r| <= |pieces| && r == pieces[..|r|]
    ensures r == [] || r[|r| - 1] != ""
    ensures forall i :: |r| <= i < |pieces| ==> pieces[i] == ""
  {
    if pieces != [] && pieces[|pieces| - 1] == "" then DropTrailingEmpty(pieces[..|pieces| - 1])
    else pieces
  }

  /**
   * `split("\\.")`: a string without a dot is returned whole; otherwise the pieces
   * between the dots, without the empty pieces at the end.  No piece holds a dot.
   */
  function SplitOnDot(s: string): (r: seq<string>)
    ensures '.' !in s ==> r == [s]
    ensures '.' in s ==> r == [] || r[|r| - 1] != ""
    ensures forall i :: 0 <= i < |r| ==> '.' !in r[i]
  {
    if '.' !in s then [s] else DropTrailingEmpty(DotPieces(s))
  }

  /**
   * The split loses only the empty pieces at the end: putting them back and joining
   * with dots gives the original string.
   */
  lemma SplitOnDotRejoins(s: string)
    ensures var r := SplitOnDot(s);
      |r| <= |DotPieces(s)| && JoinDots(r + Empties(|DotPieces(s)| - |r|)) == s
  {
    var pieces := DotPieces(s);
    if '.' !in s {
      DotPiecesWithoutDot(s);
      assert SplitOnDot(s) + Empties(0) == pieces;
    } else {
      DroppedAreEmpties(pieces);
    }
    JoinDotPieces(s);
  }

  /** What `DropTrailingEmpty` drops is a run of empty pieces. */
  lemma DroppedAreEmpties(pieces: seq<string>)
    ensures var r := DropTrailingEmpty(pieces);
      r + Empties(|pieces| - |r|) == pieces
  {
    var r := DropTrailingEmpty(pieces);
    var padded := r + Empties(|pieces| - |r|);
    assert |padded| == |pieces|;
    forall i | 0 <= i < |pieces|
      ensures padded[i] == pieces[i]
    {
      if i >= |r| {
        assert padded[i] == Empties(|pieces| - |r|)[i - |r|];
      }
    }
  }
}
