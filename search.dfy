/** The filter of the listing handler (app.py:106-113): the search term is
    lower-cased, wrapped in `%` wildcards, and each of title, content and
    category is lower-cased and matched against it with SQL `LIKE`. */
module Search {
  import opened Posts

  predicate IsUpper(c: char)
  {
    'A' <= c <= 'Z'
  }

  function LowerChar(c: char): char
  {
    if IsUpper(c) then (c as int + 32) as char else c
  }

  const LOWER_LETTERS := "abcdefghijklmnopqrstuvwxyz"

  /** Lower-casing, as Python's `str.lower` and SQL `LOWER` do it on ASCII
      letters: same length, every upper-case letter becomes the lower-case
      letter at the same place in the alphabet, nothing else changes. */
  function Lower(s: string): (r: string)
    ensures |r| == |s|
    ensures forall i :: 0 <= i < |s| ==> !IsUpper(r[i])
    ensures forall i :: 0 <= i < |s| && IsUpper(s[i]) ==> r[i] == LOWER_LETTERS[s[i] as int - 'A' as int]
    ensures forall i :: 0 <= i < |s| && !IsUpper(s[i]) ==> r[i] == s[i]
  {
    seq(|s|, i requires 0 <= i < |s| => LowerChar(s[i]))
  }

  /** Two characters that are equal once ASCII letter case is ignored. */
  predicate EqualIgnoringCase(a: char, b: char)
  {
    || a == b
    || (IsUpper(a) && b as int == a as int + ('a' as int - 'A' as int))
    || (IsUpper(b) && a as int == b as int + ('a' as int - 'A' as int))
  }

  /** Lower-casing identifies exactly the strings that differ only in ASCII
      letter case: "Cat", "CAT" and "cat" lower to the same string, and no
      two strings that differ otherwise do. */
  lemma LowerEqualIffEqualIgnoringCase(s: string, t: string)
    ensures Lower(s) == Lower(t) <==>
      |s| == |t| && forall i :: 0 <= i < |s| ==> EqualIgnoringCase(s[i], t[i])
  {
  }

  /** The characters that are not literal in a `LIKE` pattern. */
  predicate IsWildcard(c: char)
  {
    c == '%' || c == '_' || c == '\\'
  }

  predicate NoWildcards(t: string)
  {
    forall i :: 0 <= i < |t| ==> !IsWildcard(t[i])
  }

  /** SQL `s LIKE p`: `%` matches any run of characters, `_` exactly one,
      a backslash makes the next pattern character literal. */
  function Like(s: string, p: string): bool
    decreases |p|, |s|
  {
    if |p| == 0 then |s| == 0
    else if p[0] == '%' then Like(s, p[1..]) || (|s| > 0 && Like(s[1..], p))
    else if |s| == 0 then false
    else if p[0] == '_' then Like(s[1..], p[1..])
    else if p[0] == '\\' && |p| > 1 then s[0] == p[1] && Like(s[1..], p[2..])
    else s[0] == p[0] && Like(s[1..], p[1..])
  }

  /** `t` occurs in `s` as a contiguous piece. */
  predicate IsSubstring(t: string, s: string)
  {
    exists k :: 0 <= k <= |s| && t <= s[k..]
  }

  /** The pattern the handler builds: `f"%{search_term}%"`. */
  function Pattern(term: string): string
  {
    "%" + term + "%"
  }

  lemma {:induction false} LikePercent(s: string)
    ensures Like(s, "%")
    decreases |s|
  {
    assert "%"[1..] == "";
    if |s| > 0 {
      LikePercent(s[1..]);
    }
  }

  /** A wildcard-free term followed by `%` matches exactly the strings it
      starts. */
  lemma {:induction false} LikePrefix(s: string, t: string)
    requires NoWildcards(t)
    ensures Like(s, t + "%") <==> t <= s
    decreases |t|
  {
    if |t| == 0 {
      assert t + "%" == "%";
      LikePercent(s);
    } else {
      var p := t + "%";
      assert p[0] == t[0] && !IsWildcard(t[0]);
      assert p[1..] == t[1..] + "%";
      assert NoWildcards(t[1..]) by {
        forall i | 0 <= i < |t[1..]| ensures !IsWildcard(t[1..][i]) {
          assert t[1..][i] == t[i + 1];
        }
      }
      if |s| > 0 {
        LikePrefix(s[1..], t[1..]);
        assert t <= s <==> t[0] == s[0] && t[1..] <= s[1..];
      }
    }
  }

  lemma SubstringStep(t: string, s: string)
    requires |s| > 0
    ensures IsSubstring(t, s) <==> t <= s || IsSubstring(t, s[1..])
  {
    if IsSubstring(t, s) {
      var k :| 0 <= k <= |s| && t <= s[k..];
      if k > 0 {
        assert s[1..][k - 1..] == s[k..];
      }
    }
    if t <= s {
      assert s[0..] == s;
    }
    if IsSubstring(t, s[1..]) {
      var k :| 0 <= k <= |s[1..]| && t <= s[1..][k..];
      assert s[1..][k..] == s[k + 1..];
    }
  }

  /** For a term free of wildcards, `LIKE '%term%'` is substring search. */
  lemma {:induction false} LikeIsSubstring(s: string, t: string)
    requires NoWildcards(t)
    ensures Like(s, Pattern(t)) <==> IsSubstring(t, s)
    decreases |s|
  {
    var p := Pattern(t);
    assert p[0] == '%' && p[1..] == t + "%";
    LikePrefix(s, t);
    if |s| > 0 {
      LikeIsSubstring(s[1..], t);
      SubstringStep(t, s);
    } else {
      assert IsSubstring(t, s) <==> t <= s[0..];
    }
  }

  /** The lower-cased search term, `request.args.get('term', '').lower()`. */
  function SearchTerm(term: Option<string>): string
  {
    match term
    case None => ""
    case Some(t) => Lower(t)
  }

  /** `LOWER(column) LIKE pattern`; a NULL column never matches. */
  predicate ColumnLike(column: Value, pattern: string)
  {
    column.Str? && Like(Lower(column.s), pattern)
  }

  /** Whether the listing handler returns the row for this `term` argument:
      every row without a term, otherwise the rows whose title, content or
      category matches the pattern. */
  predicate Selected(p: Post, term: Option<string>)
  {
    var q := SearchTerm(term);
    q == "" || ColumnLike(p.title, Pattern(q)) || ColumnLike(p.content, Pattern(q))
      || ColumnLike(p.category, Pattern(q))
  }

  /** Case-insensitive containment of the term in a non-NULL column. */
  predicate ContainsIgnoringCase(column: Value, term: string)
  {
    column.Str? && IsSubstring(Lower(term), Lower(column.s))
  }

  lemma LowerKeepsNoWildcards(t: string)
    requires NoWildcards(t)
    ensures NoWildcards(Lower(t))
  {
  }

  /** The rows a wildcard-free search term selects are exactly those whose
      title, content or category contains it, ignoring case; an empty term
      selects every row. */
  lemma SelectedIffContains(p: Post, term: string)
    requires NoWildcards(term)
    ensures Selected(p, Some(term)) <==>
      term == "" || ContainsIgnoringCase(p.title, term) || ContainsIgnoringCase(p.content, term)
      || ContainsIgnoringCase(p.category, term)
  {
    var q := Lower(term);
    LowerKeepsNoWildcards(term);
    if p.title.Str? {
      LikeIsSubstring(Lower(p.title.s), q);
    }
    if p.content.Str? {
      LikeIsSubstring(Lower(p.content.s), q);
    }
    if p.category.Str? {
      LikeIsSubstring(Lower(p.category.s), q);
    }
  }

  /** Without a term, or with an empty one, every row is listed. */
  lemma NoTermSelectsAll(p: Post)
    ensures Selected(p, None) && Selected(p, Some(""))
  {
  }

  /** The term goes into the pattern unescaped, so `_` is a wildcard and
      selects every row whose title is not empty. */
  lemma {:induction false} UnderscoreSelectsNonEmptyTitle(p: Post)
    requires p.title.Str? && p.title.s != ""
    ensures Selected(p, Some("_"))
  {
    var q := SearchTerm(Some("_"));
    assert q == "_";
    var s := Lower(p.title.s);
    var pat := Pattern(q);
    assert pat == "%_%" && pat[1..] == "_%" && pat[1..][1..] == "%";
    LikePercent(s[1..]);
    assert Like(s, pat[1..]);
  }
}
