/**
 The two string operations the feed controller applies to a response body:
 `String.prototype.trim` and `String.prototype.startsWith`, with the
 whitespace set of the ECMAScript language (WhiteSpace and LineTerminator).
 */
module JsText {

  /** ECMAScript WhiteSpace (TAB, VT, FF, SP, NBSP, ZWNBSP and the Zs
      category) and LineTerminator (LF, CR, LS, PS): what `trim` removes. */
  predicate IsJsSpace(c: char) {
    || c == '\t' || c == '\U{B}' || c == '\U{C}' || c == ' '
    || c == '\U{A0}' || c == '\U{FEFF}'
    || c == '\U{1680}' || ('\U{2000}' <= c <= '\U{200A}')
    || c == '\U{202F}' || c == '\U{205F}' || c == '\U{3000}'
    || c == '\n' || c == '\r' || c == '\U{2028}' || c == '\U{2029}'
  }

  predicate AllSpace(s: string) {
    forall j :: 0 <= j < |s| ==> IsJsSpace(s[j])
  }

  /** Neither end of `s` is whitespace (vacuously true of the empty string). */
  predicate TightEnds(s: string) {
    s == [] || (!IsJsSpace(s[0]) && !IsJsSpace(s[|s| - 1]))
  }

  /** `r` sits at offset `a` inside `s` with only whitespace around it. */
  predicate Surrounds(s: string, r: string, a: int) {
    && 0 <= a && a + |r| <= |s|
    && s[a..a + |r|] == r
    && AllSpace(s[..a])
    && AllSpace(s[a + |r|..])
  }

  /** `String.prototype.trim`: the whitespace-free core of `s`, peeling
      whitespace off the front first and then off the back. */
  function Trim(s: string): (r: string)
    ensures TightEnds(r)
    ensures exists a :: Surrounds(s, r, a)
    decreases |s|
  {
    if s != [] && IsJsSpace(s[0]) then
      var r := Trim(s[1..]);
      assert exists a :: Surrounds(s, r, a) by {
        var a :| Surrounds(s[1..], r, a);
        ShiftRight(s, r, a);
      }
      r
    else if s != [] && IsJsSpace(s[|s| - 1]) then
      var r := Trim(s[..|s| - 1]);
      assert exists a :: Surrounds(s, r, a) by {
        var a :| Surrounds(s[..|s| - 1], r, a);
        Extend(s, r, a);
      }
      r
    else
      assert Surrounds(s, s, 0) by {
        assert s[..0] == [] && s[0..|s|] == s && s[|s|..] == [];
      }
      s
  }

  /** An occurrence in `s[1..]` is one in `s` when `s[0]` is whitespace. */
  lemma ShiftRight(s: string, r: string, a: int)
    requires s != [] && IsJsSpace(s[0]) && Surrounds(s[1..], r, a)
    ensures Surrounds(s, r, a + 1)
  {
    assert s[a + 1..a + 1 + |r|] == s[1..][a..a + |r|];
    assert s[..a + 1] == [s[0]] + s[1..][..a];
    assert s[a + 1 + |r|..] == s[1..][a + |r|..];
  }

  /** An occurrence in `s` without its last character is one in `s` when
      that character is whitespace. */
  lemma Extend(s: string, r: string, a: int)
    requires s != [] && IsJsSpace(s[|s| - 1]) && Surrounds(s[..|s| - 1], r, a)
    ensures Surrounds(s, r, a)
  {
    var p := s[..|s| - 1];
    assert s[a..a + |r|] == p[a..a + |r|];
    assert s[..a] == p[..a];
    assert s[a + |r|..] == p[a + |r|..] + [s[|s| - 1]];
  }

  /** `String.prototype.startsWith(prefix)`. */
  predicate StartsWith(s: string, prefix: string) {
    |prefix| <= |s| && s[..|prefix|] == prefix
  }

  /** The characterisation of `trim` is complete: any whitespace-padded
      occurrence of a string with non-whitespace ends IS the trim. */
  lemma {:induction false} TrimUnique(s: string, m: string, a: int)
    requires Surrounds(s, m, a) && TightEnds(m)
    ensures Trim(s) == m
    decreases |s|
  {
    if s == [] {
    } else if IsJsSpace(s[0]) {
      if a > 0 {
        assert s[1..][a - 1..a - 1 + |m|] == s[a..a + |m|];
        assert s[1..][..a - 1] == s[..a][1..];
        assert s[1..][a - 1 + |m|..] == s[a + |m|..];
        TrimUnique(s[1..], m, a - 1);
      } else {
        if m != [] {
          assert false;
        }
        assert s[1..][0..0] == [] && s[1..][..0] == [];
        assert s[1..][0..] == s[..][1..];
        assert s[1..] == s[a + |m|..][1..];
        TrimUnique(s[1..], m, 0);
      }
    } else if IsJsSpace(s[|s| - 1]) {
      var p := s[..|s| - 1];
      if a + |m| == |s| {
        assert false;
      }
      assert p[a..a + |m|] == s[a..a + |m|];
      assert p[..a] == s[..a];
      assert p[a + |m|..] == s[a + |m|..][..|s| - 1 - a - |m|];
      TrimUnique(p, m, a);
    } else {
      if a > 0 {
        assert false;
      }
      if m == [] {
        assert false;
      }
      if a + |m| < |s| {
        assert false;
      }
      assert s[0..|s|] == s;
    }
  }

  lemma TrimIdempotent(s: string)
    ensures Trim(Trim(s)) == Trim(s)
  {
    var r := Trim(s);
    assert Surrounds(r, r, 0) by {
      assert r[..0] == [] && r[|r|..] == [] && r[0..|r|] == r;
    }
    TrimUnique(r, r, 0);
  }

  /** A string that starts with a non-empty prefix is itself non-empty, so
      the emptiness test that precedes `startsWith("http")` never decides. */
  lemma NonEmptyPrefixForcesNonEmpty(s: string, prefix: string)
    requires prefix != [] && StartsWith(s, prefix)
    ensures s != [] && s[0] == prefix[0]
  {
    assert s[..|prefix|][0] == s[0];
  }
}
