/**
 * The string operations the booking handlers rely on: Python's `str.strip()`,
 * ASCII case folding, and SQLite's `LIKE` pattern match (which the name search
 * of the history page uses).
 */
module Text {

  /** The code points Python's `str.isspace()` accepts, which `str.strip()` removes. */
  predicate IsSpace(c: char) {
    ('\t' <= c <= '\r') || ('\U{1C}' <= c <= ' ') || c == '\U{85}' || c == '\U{A0}'
    || c == '\U{1680}' || ('\U{2000}' <= c <= '\U{200A}') || c == '\U{2028}' || c == '\U{2029}'
    || c == '\U{202F}' || c == '\U{205F}' || c == '\U{3000}'
  }

  /** `s` with its leading whitespace removed. */
  function TrimLeft(s: string): (r: string)
    ensures |r| <= |s|
  {
    if s != [] && IsSpace(s[0]) then TrimLeft(s[1..]) else s
  }

  /** `s` with its trailing whitespace removed. */
  function TrimRight(s: string): (r: string)
    ensures |r| <= |s|
  {
    if s != [] && IsSpace(s[|s| - 1]) then TrimRight(s[..|s| - 1]) else s
  }

  /** `TrimLeft(s)` is the suffix of `s` after its run of leading whitespace. */
  lemma {:induction false} TrimLeftSpec(s: string)
    ensures TrimLeft(s) == s[|s| - |TrimLeft(s)|..]
    ensures TrimLeft(s) == [] || !IsSpace(TrimLeft(s)[0])
    ensures forall k :: 0 <= k < |s| - |TrimLeft(s)| ==> IsSpace(s[k])
  {
    if s != [] && IsSpace(s[0]) {
      TrimLeftSpec(s[1..]);
      forall k | 1 <= k < |s| - |TrimLeft(s)| ensures IsSpace(s[k]) {
        assert s[k] == s[1..][k - 1];
      }
    }
  }

  /** `TrimRight(s)` is the prefix of `s` before its run of trailing whitespace. */
  lemma {:induction false} TrimRightSpec(s: string)
    ensures TrimRight(s) == s[..|TrimRight(s)|]
    ensures TrimRight(s) == [] || !IsSpace(TrimRight(s)[|TrimRight(s)| - 1])
    ensures forall k :: |TrimRight(s)| <= k < |s| ==> IsSpace(s[k])
  {
    if s != [] && IsSpace(s[|s| - 1]) {
      TrimRightSpec(s[..|s| - 1]);
    }
  }

  /** `r` is the slice of `s` starting at `i`, and everything of `s` outside it is whitespace. */
  predicate IsStripOf(s: string, r: string, i: int) {
    && 0 <= i && i + |r| <= |s| && s[i..i + |r|] == r
    && (forall k :: 0 <= k < i ==> IsSpace(s[k]))
    && (forall k :: i + |r| <= k < |s| ==> IsSpace(s[k]))
  }

  /** Python's `s.strip()`: `s` without its leading and trailing whitespace. */
  function Strip(s: string): (r: string) {
    TrimRight(TrimLeft(s))
  }

  /**
   * `Strip(s)` is the slice of `s` left once the whitespace at both ends is
   * cut off: it neither starts nor ends with whitespace, and it is empty
   * exactly when `s` is blank, which is what `if room_filter:` and `elif q:`
   * test on stripped text (app.py:214-216).
   */
  lemma StripSpec(s: string)
    ensures exists i :: IsStripOf(s, Strip(s), i)
    ensures Strip(s) != [] ==> !IsSpace(Strip(s)[0]) && !IsSpace(Strip(s)[|Strip(s)| - 1])
    ensures Strip(s) == [] <==> forall k :: 0 <= k < |s| ==> IsSpace(s[k])
  {
    var i := |s| - |TrimLeft(s)|;
    StripAt(s);
    StripEnds(s);
    if Strip(s) != [] {
      assert s[i] == Strip(s)[0];
    }
  }

  /** The slice `Strip` keeps starts where the leading whitespace ends. */
  lemma StripAt(s: string)
    ensures IsStripOf(s, Strip(s), |s| - |TrimLeft(s)|)
  {
    var t := TrimLeft(s);
    var r := TrimRight(t);
    TrimLeftSpec(s);
    TrimRightSpec(t);
    var i := |s| - |t|;
    forall k | i + |r| <= k < |s| ensures IsSpace(s[k]) {
      assert s[k] == t[k - i];
    }
    assert s[i..i + |r|] == t[..|r|];
  }

  /** `Strip(s)` neither starts nor ends with whitespace. */
  lemma StripEnds(s: string)
    ensures Strip(s) != [] ==> !IsSpace(Strip(s)[0]) && !IsSpace(Strip(s)[|Strip(s)| - 1])
  {
    var t := TrimLeft(s);
    TrimLeftSpec(s);
    TrimRightSpec(t);
    if Strip(s) != [] {
      assert Strip(s)[0] == t[0];
    }
  }

  /** ASCII lower-casing of one character; every other character is left alone. */
  function LowerChar(c: char): (d: char)
    ensures 'A' <= c <= 'Z' ==> 'a' <= d <= 'z' && d as int - c as int == 32
    ensures !('A' <= c <= 'Z') ==> d == c
  {
    if 'A' <= c <= 'Z' then (c as int + 32) as char else c
  }

  /** ASCII lower-casing of a string. */
  function AsciiLower(s: string): (r: string)
    ensures |r| == |s|
  {
    if s == [] then [] else [LowerChar(s[0])] + AsciiLower(s[1..])
  }

  /** Each character of `AsciiLower(s)` is the lower-cased character of `s` at that index. */
  lemma {:induction false} AsciiLowerAt(s: string, i: nat)
    requires i < |s|
    ensures AsciiLower(s)[i] == LowerChar(s[i])
  {
    if i > 0 {
      AsciiLowerAt(s[1..], i - 1);
    }
  }

  /** `a` and `b` are equal once ASCII letters are folded to one case. */
  predicate EqualIgnoringCase(a: string, b: string) {
    |a| == |b| && forall i :: 0 <= i < |a| ==> LowerChar(a[i]) == LowerChar(b[i])
  }

  /** `q` occurs in `s` at offset `k`, ignoring ASCII case. */
  predicate OccursAt(s: string, q: string, k: int) {
    0 <= k && k + |q| <= |s| && EqualIgnoringCase(s[k..k + |q|], q)
  }

  /** `q` is a substring of `s`, ignoring ASCII case. */
  ghost predicate ContainsIgnoringCase(s: string, q: string) {
    exists k :: OccursAt(s, q, k)
  }

  /**
   * SQLite's `s LIKE p` without an ESCAPE clause: `%` matches any run of
   * characters, `_` exactly one character, and every other character matches
   * itself with ASCII letters compared case-insensitively.
   */
  predicate Like(s: string, p: string)
    decreases |s| + |p|
  {
    if p == [] then s == []
    else if p[0] == '%' then Like(s, p[1..]) || (s != [] && Like(s[1..], p))
    else s != [] && (p[0] == '_' || LowerChar(s[0]) == LowerChar(p[0])) && Like(s[1..], p[1..])
  }

  /** `q` holds no LIKE wildcard. */
  predicate Literal(q: string) {
    forall i :: 0 <= i < |q| ==> q[i] != '%' && q[i] != '_'
  }

  /** A lone `%` matches every string. */
  lemma {:induction false} LikePercent(s: string)
    ensures Like(s, "%")
  {
    assert "%"[1..] == [];
    if s != [] {
      LikePercent(s[1..]);
    }
  }

  /** A wildcard-free `q` followed by `%` matches exactly the strings that start with `q`, ignoring case. */
  lemma {:induction false} LikePrefix(s: string, q: string)
    requires Literal(q)
    ensures Like(s, q + "%") <==> |q| <= |s| && EqualIgnoringCase(s[..|q|], q)
  {
    if q == [] {
      assert q + "%" == "%";
      LikePercent(s);
    } else {
      var p := q + "%";
      assert p[0] == q[0] && p[1..] == q[1..] + "%";
      assert Literal(q[1..]) by {
        forall i | 0 <= i < |q[1..]| ensures q[1..][i] != '%' && q[1..][i] != '_' {
          assert q[1..][i] == q[i + 1];
        }
      }
      if s != [] {
        LikePrefix(s[1..], q[1..]);
        if |q| <= |s| {
          assert s[1..][..|q| - 1] == s[1..|q|];
          assert EqualIgnoringCase(s[..|q|], q) <==>
            LowerChar(s[0]) == LowerChar(q[0]) && EqualIgnoringCase(s[1..][..|q| - 1], q[1..]) by {
            if EqualIgnoringCase(s[..|q|], q) {
              forall i | 0 <= i < |q| - 1
                ensures LowerChar(s[1..][..|q| - 1][i]) == LowerChar(q[1..][i])
              {
                assert s[..|q|][i + 1] == s[1..][..|q| - 1][i];
              }
            }
            if LowerChar(s[0]) == LowerChar(q[0]) && EqualIgnoringCase(s[1..][..|q| - 1], q[1..]) {
              forall i | 0 <= i < |q| ensures LowerChar(s[..|q|][i]) == LowerChar(q[i]) {
                if i > 0 {
                  assert s[..|q|][i] == s[1..][..|q| - 1][i - 1];
                }
              }
            }
          }
        }
      }
    }
  }

  /** `s` matches `p` from offset `k` on. */
  ghost predicate LikeFrom(s: string, p: string, k: int) {
    0 <= k <= |s| && Like(s[k..], p)
  }

  /** A leading `%` lets the rest of the pattern match any suffix. */
  lemma {:induction false} LikeLeadingPercent(s: string, p: string)
    ensures Like(s, "%" + p) <==> exists k :: LikeFrom(s, p, k)
  {
    var pp := "%" + p;
    assert pp[0] == '%' && pp[1..] == p;
    assert s[0..] == s;
    if s == [] {
      assert Like(s, pp) <==> Like(s, p);
      if Like(s, p) {
        assert LikeFrom(s, p, 0);
      }
      if exists k :: LikeFrom(s, p, k) {
        var k :| LikeFrom(s, p, k);
        assert k == 0;
      }
    } else {
      LikeLeadingPercent(s[1..], p);
      if Like(s, p) {
        assert LikeFrom(s, p, 0);
      }
      if Like(s[1..], pp) {
        var k :| LikeFrom(s[1..], p, k);
        assert s[1..][k..] == s[k + 1..];
        assert LikeFrom(s, p, k + 1);
      }
      if exists k :: LikeFrom(s, p, k) {
        var k :| LikeFrom(s, p, k);
        if k > 0 {
          assert s[1..][k - 1..] == s[k..];
          assert LikeFrom(s[1..], p, k - 1);
          assert Like(s[1..], pp);
        } else {
          assert Like(s, p);
        }
        assert Like(s, pp);
      }
    }
  }

  /**
   * The pattern `'%' + q + '%'` used by the name search at app.py:217 matches
   * exactly the strings that contain `q` ignoring ASCII case, provided `q` has
   * no wildcard of its own.
   */
  lemma NameLikeIsContains(s: string, q: string)
    requires Literal(q)
    ensures Like(s, "%" + q + "%") <==> ContainsIgnoringCase(s, q)
  {
    assert "%" + q + "%" == "%" + (q + "%");
    LikeLeadingPercent(s, q + "%");
    if Like(s, "%" + q + "%") {
      var k :| LikeFrom(s, q + "%", k);
      LikePrefix(s[k..], q);
      assert s[k..][..|q|] == s[k..k + |q|];
      assert OccursAt(s, q, k);
    }
    if ContainsIgnoringCase(s, q) {
      var k :| OccursAt(s, q, k);
      LikePrefix(s[k..], q);
      assert s[k..][..|q|] == s[k..k + |q|];
      assert LikeFrom(s, q + "%", k);
    }
  }

  /**
   * Without that proviso the search is not a substring search: a `_` typed
   * into the box matches any character, so "%a_c%" matches the name "abc",
   * which does not contain the text "a_c".
   */
  lemma WildcardInSearch()
    ensures Like("abc", "%" + "a_c" + "%")
    ensures !ContainsIgnoringCase("abc", "a_c")
  {
    var p := "a_c" + "%";
    assert p == "a_c%";
    LikePercent([]);
    assert "abc"[1..][1..][1..] == [] && "a_c%"[1..][1..][1..] == "%";
    assert Like("abc"[1..][1..], "a_c%"[1..][1..]);
    assert Like("abc"[1..], "a_c%"[1..]);
    assert Like("abc", p);
    assert "abc"[0..] == "abc";
    assert LikeFrom("abc", p, 0);
    LikeLeadingPercent("abc", p);
    assert "%" + "a_c" + "%" == "%" + p;
  }
}
