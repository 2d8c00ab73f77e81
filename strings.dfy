/**
 * The JavaScript string operations the core relies on: `includes`,
 * `split` with a non-empty separator, `join`, and the ASCII case folding
 * that a regular expression with the `i` flag applies.
 */
module Strings {

  /** Concatenation is associative (a step the append lemmas take explicitly). */
  lemma AppendAssoc<T>(x: seq<T>, y: seq<T>, z: seq<T>)
    ensures (x + y) + z == x + (y + z)
  {
  }

  /** `s.startsWith(p)`. */
  predicate StartsWith(s: string, p: string) {
    |p| <= |s| && s[..|p|] == p
  }

  /** `s.includes(p)`: `p` occurs somewhere in `s`. */
  predicate Contains(s: string, p: string)
    decreases |s|
  {
    StartsWith(s, p) || (|s| > 0 && Contains(s[1..], p))
  }

  /** Whatever `s` is, `s + p` contains `p`. */
  lemma {:induction false} ContainsAppended(s: string, p: string)
    ensures Contains(s + p, p)
    decreases |s|
  {
    if |s| == 0 {
      assert s + p == p;
    } else {
      ContainsAppended(s[1..], p);
      assert (s + p)[1..] == s[1..] + p;
    }
  }

  /** An occurrence of a non-empty `p` puts its first character in `s`. */
  lemma {:induction false} ContainsFirstChar(s: string, p: string)
    requires |p| > 0 && Contains(s, p)
    ensures p[0] in s
    decreases |s|
  {
    if StartsWith(s, p) {
      assert s[0] == p[0];
    } else {
      ContainsFirstChar(s[1..], p);
      assert p[0] in s[1..];
    }
  }

  function LowerChar(c: char): char {
    if 'A' <= c <= 'Z' then (c as int + 32) as char else c
  }

  /** ASCII lower-casing, the folding a case-insensitive regular expression applies to letters. */
  function Lower(s: string): (r: string)
    ensures |r| == |s|
    ensures forall i :: 0 <= i < |s| ==> r[i] == LowerChar(s[i])
  {
    seq(|s|, i requires 0 <= i < |s| => LowerChar(s[i]))
  }

  /** Lower-casing moves no character that is not a capital letter. */
  lemma LowerKeepsChar(s: string, c: char)
    requires !('A' <= c <= 'Z') && !('a' <= c <= 'z')
    ensures c in Lower(s) <==> c in s
  {
    if c in Lower(s) {
      var i :| 0 <= i < |s| && Lower(s)[i] == c;
      assert s[i] == c;
    }
    if c in s {
      var i :| 0 <= i < |s| && s[i] == c;
      assert Lower(s)[i] == c;
    }
  }

  /**
   * `s.split(sep)` for a non-empty separator: the pieces between the
   * leftmost non-overlapping occurrences of `sep`.
   */
  function SplitOn(s: string, sep: string): (r: seq<string>)
    requires |sep| > 0
    ensures |r| >= 1
    decreases |s|
  {
    if |s| < |sep| then [s]
    else if s[..|sep|] == sep then [""] + SplitOn(s[|sep|..], sep)
    else
      var rest := SplitOn(s[1..], sep);
      [[s[0]] + rest[0]] + rest[1..]
  }

  /** `parts.join(sep)`. */
  function Join(parts: seq<string>, sep: string): string
    decreases |parts|
  {
    if |parts| == 0 then ""
    else if |parts| == 1 then parts[0]
    else parts[0] + sep + Join(parts[1..], sep)
  }

  /** Putting a character in front of the first piece puts it in front of the join. */
  lemma JoinConsFirst(c: char, ps: seq<string>, sep: string)
    requires |ps| >= 1
    ensures Join([[c] + ps[0]] + ps[1..], sep) == [c] + Join(ps, sep)
  {
    var r := [[c] + ps[0]] + ps[1..];
    if |ps| > 1 {
      assert r[1..] == ps[1..];
    }
  }

  /** Joining the pieces of a split with the same separator gives the string back. */
  lemma {:induction false} JoinSplit(s: string, sep: string)
    requires |sep| > 0
    ensures Join(SplitOn(s, sep), sep) == s
    decreases |s|
  {
    if |s| < |sep| {
    } else if s[..|sep|] == sep {
      var rest := SplitOn(s[|sep|..], sep);
      JoinSplit(s[|sep|..], sep);
      var ps := [""] + rest;
      assert |ps| > 1 && ps[0] == "" && ps[1..] == rest;
      assert Join(ps, sep) == "" + sep + Join(rest, sep);
      assert "" + sep == sep;
      assert s == sep + s[|sep|..];
    } else {
      JoinSplit(s[1..], sep);
      JoinConsFirst(s[0], SplitOn(s[1..], sep), sep);
      assert s == [s[0]] + s[1..];
    }
  }

  /**
   * A prefix in which the separator's first character does not occur cannot
   * hold a separator, so it ends up in the first piece.
   */
  lemma {:induction false} SplitPrefix(p: string, t: string, sep: string)
    requires |sep| > 0 && sep[0] !in p
    ensures SplitOn(p + t, sep) == [p + SplitOn(t, sep)[0]] + SplitOn(t, sep)[1..]
    decreases |p|
  {
    if |p| == 0 {
      var r := SplitOn(t, sep);
      assert p + t == t && p + r[0] == r[0];
      assert r == [r[0]] + r[1..];
    } else {
      var s := p + t;
      assert s[0] == p[0] && s[1..] == p[1..] + t;
      SplitPrefix(p[1..], t, sep);
      if |s| < |sep| {
        assert SplitOn(t, sep) == [t];
        assert SplitOn(s[1..], sep) == [p[1..] + t];
      } else {
        assert s[..|sep|][0] == p[0] != sep[0];
        assert [s[0]] + (p[1..] + SplitOn(t, sep)[0]) == p + SplitOn(t, sep)[0];
      }
    }
  }

  /** A string without the separator's first character splits into itself alone. */
  lemma SplitWithout(s: string, sep: string)
    requires |sep| > 0 && sep[0] !in s
    ensures SplitOn(s, sep) == [s]
  {
    SplitPrefix(s, "", sep);
    assert s + "" == s;
  }

  /** Splitting `p + sep + t`, where `p` cannot hold a separator, peels `p` off first. */
  lemma SplitAfter(p: string, t: string, sep: string)
    requires |sep| > 0 && sep[0] !in p
    ensures SplitOn(p + sep + t, sep) == [p] + SplitOn(t, sep)
  {
    SplitPrefix(p, sep + t, sep);
    assert (p + sep) + t == p + (sep + t);
    assert (sep + t)[..|sep|] == sep && (sep + t)[|sep|..] == t;
    assert SplitOn(sep + t, sep) == [""] + SplitOn(t, sep);
    assert p + "" == p;
  }

  /** No piece of a split on a single character holds that character. */
  lemma {:induction false} SplitPiecesFree(s: string, c: char)
    ensures forall i :: 0 <= i < |SplitOn(s, [c])| ==> c !in SplitOn(s, [c])[i]
    decreases |s|
  {
    if |s| >= 1 {
      SplitPiecesFree(s[1..], c);
      if s[..1] != [c] {
        assert s[0] != c;
      }
    }
  }

  /** Every character of every piece is a character of the split string. */
  lemma {:induction false} SplitPiecesFrom(s: string, sep: string, x: char)
    requires |sep| > 0 && x !in s
    ensures forall i :: 0 <= i < |SplitOn(s, sep)| ==> x !in SplitOn(s, sep)[i]
    decreases |s|
  {
    if |s| < |sep| {
    } else if s[..|sep|] == sep {
      SplitPiecesFrom(s[|sep|..], sep, x);
    } else {
      SplitPiecesFrom(s[1..], sep, x);
      assert s[0] != x;
    }
  }
}
