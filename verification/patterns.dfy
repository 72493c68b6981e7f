/**
 * The plain-text mode of the text criteria (`DTNodeTextCriterion`): the
 * pattern is escaped, each `*` becomes the regular expression `.*`, and the
 * result is either anchored with `^…$` (when the pattern holds a `*`) or
 * wrapped in `.*….*`; a haystack string matches when Python's `re.match`
 * accepts it. The fragment of `re` this builds is modelled exactly: `.`
 * never matches a newline, and `$` also matches before a final newline.
 */
module Patterns {
  import PyStr

  /** One item of the compiled expression: a literal character, or `.*`. */
  datatype Atom = Lit(c: char) | AnyRun

  /** A compiled plain-text pattern: its atoms, whether it ends with `$`, and the IGNORECASE flag. */
  datatype Regex = Regex(atoms: seq<Atom>, anchored: bool, ignoreCase: bool)

  /** One literal against one character; ignoring case folds ASCII letters. */
  predicate CharMatch(c: char, x: char, ignoreCase: bool) {
    if ignoreCase then PyStr.LowerChar(c) == PyStr.LowerChar(x) else c == x
  }

  /**
   * `re.match` of the atoms at the start of `s`: without `$` any prefix of
   * `s` may be matched; with `$` the whole of `s`, or `s` less a final "\n".
   */
  predicate MatchAtoms(atoms: seq<Atom>, s: string, ignoreCase: bool, anchored: bool)
    decreases |atoms|, |s|
  {
    if atoms == [] then !anchored || s == [] || s == "\n"
    else
      match atoms[0]
      case Lit(c) =>
        s != [] && CharMatch(c, s[0], ignoreCase) && MatchAtoms(atoms[1..], s[1..], ignoreCase, anchored)
      case AnyRun =>
        MatchAtoms(atoms[1..], s, ignoreCase, anchored)
        || (s != [] && s[0] != '\n' && MatchAtoms(atoms, s[1..], ignoreCase, anchored))
  }

  /** `re.escape(pattern).replace("\\*", ".*")`: every `*` is a wild-card, every other character literal. */
  function Escape(pattern: string): seq<Atom> {
    seq(|pattern|, k requires 0 <= k < |pattern| => if pattern[k] == '*' then AnyRun else Lit(pattern[k]))
  }

  /** `_init_plain_text()`: anchored glob when the pattern holds a `*`, otherwise a search. */
  function Compile(pattern: string, ignoreCase: bool): (r: Regex)
    ensures r.anchored <==> '*' in pattern
    ensures r.ignoreCase == ignoreCase
    ensures |r.atoms| == |pattern| + (if '*' in pattern then 0 else 2)
  {
    if '*' in pattern then Regex(Escape(pattern), true, ignoreCase)
    else Regex([AnyRun] + Escape(pattern) + [AnyRun], false, ignoreCase)
  }

  /** Whether the plain-text criterion built on `pattern` accepts the haystack string `s`. */
  predicate Matches(pattern: string, ignoreCase: bool, s: string) {
    var re := Compile(pattern, ignoreCase);
    MatchAtoms(re.atoms, s, re.ignoreCase, re.anchored)
  }

  /** `t` spells `p` character by character, up to case when ignoring it. */
  predicate LitsMatch(p: string, t: string, ignoreCase: bool) {
    |p| == |t| && forall k :: 0 <= k < |p| ==> CharMatch(p[k], t[k], ignoreCase)
  }

  /** The string as the comparison sees it: lower-cased when ignoring case. */
  function Fold(s: string, ignoreCase: bool): (r: string)
    ensures |r| == |s|
  {
    if ignoreCase then PyStr.Lower(s) else s
  }

  /** Literal matching is equality once both sides are folded. */
  lemma LitsMatchFold(p: string, t: string, ignoreCase: bool)
    requires |p| == |t|
    ensures LitsMatch(p, t, ignoreCase) <==> Fold(t, ignoreCase) == Fold(p, ignoreCase)
  {
    if LitsMatch(p, t, ignoreCase) {
      assert forall k :: 0 <= k < |p| ==> Fold(t, ignoreCase)[k] == Fold(p, ignoreCase)[k];
    }
    if Fold(t, ignoreCase) == Fold(p, ignoreCase) {
      forall k | 0 <= k < |p|
        ensures CharMatch(p[k], t[k], ignoreCase)
      {
        assert Fold(t, ignoreCase)[k] == Fold(p, ignoreCase)[k];
      }
    }
  }

  lemma EscapeConcat(a: string, b: string)
    ensures Escape(a + b) == Escape(a) + Escape(b)
  {
  }

  /** A star-free pattern part is a run of literals: it consumes exactly its own length. */
  lemma {:induction false} LitPrefix(p: string, rest: seq<Atom>, s: string, ignoreCase: bool, anchored: bool)
    requires '*' !in p
    ensures MatchAtoms(Escape(p) + rest, s, ignoreCase, anchored)
        <==> |p| <= |s| && LitsMatch(p, s[..|p|], ignoreCase) && MatchAtoms(rest, s[|p|..], ignoreCase, anchored)
    decreases |p|
  {
    if p == [] {
      assert Escape(p) + rest == rest;
    } else {
      var atoms := Escape(p) + rest;
      assert p[0] in p;
      assert atoms[0] == Lit(p[0]);
      assert atoms[1..] == Escape(p[1..]) + rest;
      assert forall x :: x in p[1..] ==> x in p;
      if s != [] {
        LitPrefix(p[1..], rest, s[1..], ignoreCase, anchored);
        if |p| <= |s| {
          assert s[1..][|p| - 1..] == s[|p|..];
          var t := s[..|p|];
          assert s[1..][..|p| - 1] == t[1..];
          assert LitsMatch(p, t, ignoreCase)
              <==> CharMatch(p[0], t[0], ignoreCase) && LitsMatch(p[1..], t[1..], ignoreCase)
          by {
            if CharMatch(p[0], t[0], ignoreCase) && LitsMatch(p[1..], t[1..], ignoreCase) {
              forall k | 0 <= k < |p|
                ensures CharMatch(p[k], t[k], ignoreCase)
              {
                if k > 0 {
                  assert p[k] == p[1..][k - 1] && t[k] == t[1..][k - 1];
                }
              }
            }
          }
        }
      }
    }
  }

  /** `.*` followed by more atoms: it swallows some newline-free stretch, possibly empty. */
  lemma {:induction false} AnyRunThen(rest: seq<Atom>, s: string, ignoreCase: bool, anchored: bool)
    ensures MatchAtoms([AnyRun] + rest, s, ignoreCase, anchored)
        <==> exists i :: 0 <= i <= |s| && '\n' !in s[..i] && MatchAtoms(rest, s[i..], ignoreCase, anchored)
    decreases |s|
  {
    var atoms := [AnyRun] + rest;
    assert atoms[1..] == rest;
    if MatchAtoms(atoms, s, ignoreCase, anchored) {
      if MatchAtoms(rest, s, ignoreCase, anchored) {
        assert s[..0] == [] && s[0..] == s;
      } else {
        assert s != [] && s[0] != '\n' && MatchAtoms(atoms, s[1..], ignoreCase, anchored);
        AnyRunThen(rest, s[1..], ignoreCase, anchored);
        var i :| 0 <= i <= |s[1..]| && '\n' !in s[1..][..i] && MatchAtoms(rest, s[1..][i..], ignoreCase, anchored);
        assert s[..i + 1] == [s[0]] + s[1..][..i];
        assert s[i + 1..] == s[1..][i..];
      }
    }
    if exists i :: 0 <= i <= |s| && '\n' !in s[..i] && MatchAtoms(rest, s[i..], ignoreCase, anchored) {
      var i :| 0 <= i <= |s| && '\n' !in s[..i] && MatchAtoms(rest, s[i..], ignoreCase, anchored);
      if i == 0 {
        assert s[0..] == s;
      } else {
        assert s[0] in s[..i];
        assert s[1..][..i - 1] == s[1..i];
        assert forall x :: x in s[1..i] ==> x in s[..i];
        assert s[1..][i - 1..] == s[i..];
        AnyRunThen(rest, s[1..], ignoreCase, anchored);
      }
    }
  }

  /** `p` occurs in `s` at index `i`. */
  predicate OccursAt(s: string, p: string, i: int) {
    0 <= i && i + |p| <= |s| && s[i..i + |p|] == p
  }

  /** `p in s`, located: some window of `s` equals `p`. */
  lemma {:induction false} ContainsSubAt(s: string, p: string)
    ensures PyStr.ContainsSub(s, p) <==> exists i :: OccursAt(s, p, i)
    decreases |s|
  {
    if p <= s {
      assert OccursAt(s, p, 0);
    } else if s != [] {
      ContainsSubAt(s[1..], p);
      if exists i :: OccursAt(s[1..], p, i) {
        var i :| OccursAt(s[1..], p, i);
        assert OccursAt(s, p, i + 1);
      }
      if exists i :: OccursAt(s, p, i) {
        var i :| OccursAt(s, p, i);
        assert i != 0;
        assert OccursAt(s[1..], p, i - 1);
      }
    } else {
      assert |p| > 0;
    }
  }

  /**
   * A pattern without `*` searches: the criterion holds iff the pattern
   * occurs in `s` (up to case) after a stretch that crosses no newline.
   */
  lemma SearchMatch(p: string, ignoreCase: bool, s: string)
    requires '*' !in p
    ensures Matches(p, ignoreCase, s)
        <==> exists i :: 0 <= i && i + |p| <= |s| && '\n' !in s[..i] && LitsMatch(p, s[i..i + |p|], ignoreCase)
  {
    var tail := Escape(p) + [AnyRun];
    assert Compile(p, ignoreCase).atoms == [AnyRun] + tail;
    AnyRunThen(tail, s, ignoreCase, false);
    forall i | 0 <= i <= |s|
      ensures MatchAtoms(tail, s[i..], ignoreCase, false)
          <==> i + |p| <= |s| && LitsMatch(p, s[i..i + |p|], ignoreCase)
    {
      LitPrefix(p, [AnyRun], s[i..], ignoreCase, false);
      assert [AnyRun][1..] == [];
      if i + |p| <= |s| {
        assert s[i..][..|p|] == s[i..i + |p|];
      }
    }
  }

  /** On a haystack line (no newline) a star-free pattern is a case-folded substring test. */
  lemma SearchIsSubstring(p: string, ignoreCase: bool, s: string)
    requires '*' !in p && '\n' !in s
    ensures Matches(p, ignoreCase, s) <==> PyStr.ContainsSub(Fold(s, ignoreCase), Fold(p, ignoreCase))
  {
    SearchMatch(p, ignoreCase, s);
    var fs, fp := Fold(s, ignoreCase), Fold(p, ignoreCase);
    ContainsSubAt(fs, fp);
    forall i | 0 <= i && i + |p| <= |s|
      ensures '\n' !in s[..i]
      ensures LitsMatch(p, s[i..i + |p|], ignoreCase) <==> OccursAt(fs, fp, i)
    {
      assert forall x :: x in s[..i] ==> x in s;
      LitsMatchFold(p, s[i..i + |p|], ignoreCase);
      assert Fold(s[i..i + |p|], ignoreCase) == fs[i..i + |p|];
    }
  }

  /** The bare pattern `*` accepts every string that holds no newline except possibly a final one. */
  lemma StarMatchesAnyLine(ignoreCase: bool, s: string)
    ensures Matches("*", ignoreCase, s) <==> '\n' !in s || (s[|s| - 1] == '\n' && '\n' !in s[..|s| - 1])
  {
    assert Compile("*", ignoreCase).atoms == [AnyRun] + [];
    AnyRunThen([], s, ignoreCase, true);
    if '\n' !in s {
      assert s[..|s|] == s && s[|s|..] == [];
    } else if s[|s| - 1] == '\n' && '\n' !in s[..|s| - 1] {
      assert s[|s| - 1..] == "\n";
    } else {
      forall i | 0 <= i <= |s| && '\n' !in s[..i]
        ensures !MatchAtoms([], s[i..], ignoreCase, true)
      {
        var k :| 0 <= k < |s| && s[k] == '\n';
        assert forall j :: 0 <= j < i ==> s[j] == s[..i][j];
        assert s[i..] == "\n" ==> i == |s| - 1;
      }
    }
  }

  /**
   * A glob `a*b` with a star-free head: the head matches the start of `s`
   * (up to case), the star swallows a newline-free stretch, possibly empty,
   * and the rest of the pattern matches what is left, up to the end.
   */
  lemma GlobHead(a: string, b: string, ignoreCase: bool, s: string)
    requires '*' !in a
    ensures Matches(a + "*" + b, ignoreCase, s)
        <==> |a| <= |s| && LitsMatch(a, s[..|a|], ignoreCase)
             && exists i :: |a| <= i <= |s| && '\n' !in s[|a|..i] && MatchAtoms(Escape(b), s[i..], ignoreCase, true)
  {
    var p := a + "*" + b;
    assert p[|a|] == '*';
    EscapeConcat(a + "*", b);
    EscapeConcat(a, "*");
    assert Escape("*") == [AnyRun];
    assert Compile(p, ignoreCase).atoms == Escape(a) + ([AnyRun] + Escape(b));
    LitPrefix(a, [AnyRun] + Escape(b), s, ignoreCase, true);
    if |a| <= |s| {
      var t := s[|a|..];
      AnyRunThen(Escape(b), t, ignoreCase, true);
      if exists j :: 0 <= j <= |t| && '\n' !in t[..j] && MatchAtoms(Escape(b), t[j..], ignoreCase, true) {
        var j :| 0 <= j <= |t| && '\n' !in t[..j] && MatchAtoms(Escape(b), t[j..], ignoreCase, true);
        assert t[..j] == s[|a|..|a| + j] && t[j..] == s[|a| + j..];
      }
      if exists i :: |a| <= i <= |s| && '\n' !in s[|a|..i] && MatchAtoms(Escape(b), s[i..], ignoreCase, true) {
        var i :| |a| <= i <= |s| && '\n' !in s[|a|..i] && MatchAtoms(Escape(b), s[i..], ignoreCase, true);
        assert t[..i - |a|] == s[|a|..i] && t[i - |a|..] == s[i..];
      }
    }
  }

  /**
   * A glob `a*b` with star-free head and tail on a haystack line: `s`
   * starts with `a`, ends with `b`, and is long enough for both, so
   * `"i*c"` accepts `"i2c"`.
   */
  lemma GlobHeadTail(a: string, b: string, ignoreCase: bool, s: string)
    requires '*' !in a && '*' !in b && '\n' !in s
    ensures Matches(a + "*" + b, ignoreCase, s)
        <==> |a| + |b| <= |s| && LitsMatch(a, s[..|a|], ignoreCase) && LitsMatch(b, s[|s| - |b|..], ignoreCase)
  {
    GlobHead(a, b, ignoreCase, s);
    assert Escape(b) + [] == Escape(b);
    forall i | |a| <= i <= |s|
      ensures '\n' !in s[|a|..i]
      ensures MatchAtoms(Escape(b), s[i..], ignoreCase, true) <==> i == |s| - |b| && LitsMatch(b, s[i..], ignoreCase)
    {
      assert forall x :: x in s[|a|..i] ==> x in s;
      LitPrefix(b, [], s[i..], ignoreCase, true);
      if |b| <= |s[i..]| {
        var rest := s[i..][|b|..];
        assert forall x :: x in rest ==> x in s;
        assert |rest| == 1 ==> rest[0] in s;
      }
    }
    if |a| + |b| <= |s| && LitsMatch(a, s[..|a|], ignoreCase) && LitsMatch(b, s[|s| - |b|..], ignoreCase) {
      var i := |s| - |b|;
      assert '\n' !in s[|a|..i] && MatchAtoms(Escape(b), s[i..], ignoreCase, true);
    }
  }

  lemma GlobExample()
    ensures Matches("i*c", false, "i2c")
  {
    GlobHeadTail("i", "c", false, "i2c");
    assert "i" + "*" + "c" == "i*c";
  }
}
