/**
 Slugs: the suggestion of admin-ui/src/utils/slug.ts against the grammar of src/utils/slug.ts.
 */
module Slug {
  import opened JsText

  /** `[a-z0-9]`. */
  predicate SlugChar(c: char) {
    'a' <= c <= 'z' || '0' <= c <= '9'
  }

  const RESERVED: set<string> := {"admin", "api", "health"}

  predicate AllSlugChars(s: string) {
    forall i :: 0 <= i < |s| ==> SlugChar(s[i])
  }

  predicate Groups(groups: seq<string>) {
    groups == [] || (groups[0] != "" && AllSlugChars(groups[0]) && Groups(groups[1..]))
  }

  /** `^[a-z0-9]+(?:-[a-z0-9]+)*$`: nonempty groups with one hyphen between neighbours. */
  predicate InPattern(s: string) {
    Groups(Split(s, '-'))
  }

  predicate IsValidSlugFormat(slug: string) {
    3 <= |slug| <= 63 && InPattern(slug) && slug !in RESERVED
  }

  // ---- The suggestion ----

  function DropRun(s: string): (rest: string)
    ensures |rest| <= |s|
    ensures s != [] && !SlugChar(s[0]) ==> |rest| < |s|
    ensures rest == [] || SlugChar(rest[0])
  {
    if s != [] && !SlugChar(s[0]) then DropRun(s[1..]) else s
  }

  /** `replace(/[^a-z0-9]+/g, "-")`. */
  function Collapse(s: string): string
    decreases |s|
  {
    if s == [] then []
    else if SlugChar(s[0]) then [s[0]] + Collapse(s[1..])
    else "-" + Collapse(DropRun(s))
  }

  function DropLeading(s: string): string {
    if s != [] && s[0] == '-' then DropLeading(s[1..]) else s
  }

  function DropTrailing(s: string): string {
    if s != [] && s[|s| - 1] == '-' then DropTrailing(s[..|s| - 1]) else s
  }

  /** `replace(/^-+|-+$/g, "")`. */
  function TrimHyphens(s: string): string {
    DropTrailing(DropLeading(s))
  }

  function Slugify(lower: string -> string, value: string): string {
    TrimHyphens(Collapse(Trim(lower(value))))
  }

  // ---- The grammar without groups ----

  predicate Hyphenated(s: string) {
    forall i :: 0 <= i < |s| ==> SlugChar(s[i]) || s[i] == '-'
  }

  predicate NoDouble(s: string) {
    forall i :: 0 <= i < |s| - 1 ==> !(s[i] == '-' && s[i + 1] == '-')
  }

  /** Letters, digits and hyphens; no leading, trailing or double hyphen; not empty. */
  predicate Tidy(s: string) {
    s != "" && Hyphenated(s) && NoDouble(s) && s[0] != '-' && s[|s| - 1] != '-'
  }

  lemma FirstGroupGrows(s: string)
    requires |s| > 1 && s[0] != '-' && s[1] != '-'
    ensures InPattern(s) <==> SlugChar(s[0]) && InPattern(s[1..])
    ensures Tidy(s) <==> SlugChar(s[0]) && Tidy(s[1..])
  {
    var rest := Split(s[1..], '-');
    var first := [s[0]] + rest[0];
    assert rest[0] != "" && rest[0][0] == s[1];
    assert Split(s, '-') == [first] + rest[1..];
    assert AllSlugChars(first) <==> SlugChar(s[0]) && AllSlugChars(rest[0]) by {
      assert first[0] == s[0];
      assert forall i :: 0 <= i < |rest[0]| ==> first[i + 1] == rest[0][i];
    }
    assert s == [s[0]] + s[1..];
  }

  lemma SecondIsHyphen(s: string)
    requires |s| > 1 && s[0] != '-' && s[1] == '-'
    ensures InPattern(s) <==> SlugChar(s[0]) && InPattern(s[2..])
    ensures Tidy(s) <==> SlugChar(s[0]) && Tidy(s[2..])
  {
    var rest := Split(s[2..], '-');
    assert s[1..][1..] == s[2..];
    assert Split(s[1..], '-') == [""] + rest;
    assert [s[0]] + "" == [s[0]];
    assert Split(s, '-') == [[s[0]]] + rest;
    assert s == [s[0], '-'] + s[2..];
  }

  /** The two readings of the slug rules agree. */
  lemma {:induction false} PatternMeansTidy(s: string)
    ensures InPattern(s) <==> Tidy(s)
    decreases |s|
  {
    if s == [] {
      assert Split(s, '-') == [""];
    } else if s[0] == '-' {
      assert Split(s, '-')[0] == "";
    } else if |s| == 1 {
      assert Split(s[1..], '-') == [""];
      assert [s[0]] + "" == s;
      assert Split(s, '-') == [s];
      assert Groups([s]) <==> AllSlugChars(s);
    } else if s[1] == '-' {
      SecondIsHyphen(s);
      PatternMeansTidy(s[2..]);
    } else {
      FirstGroupGrows(s);
      PatternMeansTidy(s[1..]);
    }
  }

  // ---- The suggestion is a slug or nothing ----

  /** The letters and digits of a text, in order. */
  function Ink(s: string): string {
    if s == [] then [] else (if SlugChar(s[0]) then [s[0]] else []) + Ink(s[1..])
  }

  lemma {:induction false} DropRunKeepsInk(s: string)
    ensures Ink(DropRun(s)) == Ink(s)
  {
    if s != [] && !SlugChar(s[0]) {
      DropRunKeepsInk(s[1..]);
    }
  }

  lemma {:induction false} CollapseKeepsInk(s: string)
    ensures Ink(Collapse(s)) == Ink(s)
    decreases |s|
  {
    if s != [] {
      if SlugChar(s[0]) {
        CollapseKeepsInk(s[1..]);
        assert Collapse(s)[1..] == Collapse(s[1..]);
      } else {
        DropRunKeepsInk(s);
        CollapseKeepsInk(DropRun(s));
        assert Collapse(s)[1..] == Collapse(DropRun(s));
      }
    }
  }

  lemma {:induction false} CollapseIsHyphenated(s: string)
    ensures Hyphenated(Collapse(s)) && NoDouble(Collapse(s))
    ensures s != [] && SlugChar(s[0]) ==> Collapse(s) != [] && Collapse(s)[0] == s[0]
    decreases |s|
  {
    if s != [] {
      var next := if SlugChar(s[0]) then s[1..] else DropRun(s);
      CollapseIsHyphenated(next);
    }
  }

  lemma {:induction false} DropLeadingKeeps(s: string)
    requires Hyphenated(s) && NoDouble(s)
    ensures var t := DropLeading(s);
            Hyphenated(t) && NoDouble(t) && Ink(t) == Ink(s) && (t != "" ==> t[0] != '-')
  {
    if s != [] && s[0] == '-' {
      DropLeadingKeeps(s[1..]);
    }
  }

  lemma {:induction false} InkOfConcat(a: string, b: string)
    ensures Ink(a + b) == Ink(a) + Ink(b)
  {
    if a == [] {
      assert a + b == b;
    } else {
      var first := if SlugChar(a[0]) then [a[0]] else [];
      assert (a + b)[1..] == a[1..] + b;
      InkOfConcat(a[1..], b);
      assert first + (Ink(a[1..]) + Ink(b)) == (first + Ink(a[1..])) + Ink(b);
    }
  }

  lemma {:induction false} DropTrailingKeeps(s: string)
    requires Hyphenated(s) && NoDouble(s) && (s != "" ==> s[0] != '-')
    ensures var t := DropTrailing(s);
            (t == "" || Tidy(t)) && Ink(t) == Ink(s)
    decreases |s|
  {
    if s != [] && s[|s| - 1] == '-' {
      var front := s[..|s| - 1];
      DropTrailingKeeps(front);
      InkOfConcat(front, "-");
      assert s == front + "-";
    }
  }

  lemma {:induction false} InkOfTidy(s: string)
    requires Tidy(s)
    ensures Ink(s) != ""
  {
  }

  lemma {:induction false} InkOfSpaces(s: string)
    ensures Ink(Trim(s)) == Ink(s)
  {
    InkOfTrimStart(s);
    InkOfTrimEnd(TrimStart(s));
  }

  lemma {:induction false} InkOfTrimStart(s: string)
    ensures Ink(TrimStart(s)) == Ink(s)
  {
    if s != [] && IsSpace(s[0]) {
      InkOfTrimStart(s[1..]);
    }
  }

  lemma {:induction false} InkOfTrimEnd(s: string)
    ensures Ink(TrimEnd(s)) == Ink(s)
    decreases |s|
  {
    if s != [] && IsSpace(s[|s| - 1]) {
      var front := s[..|s| - 1];
      InkOfTrimEnd(front);
      InkOfConcat(front, [s[|s| - 1]]);
      assert s == front + [s[|s| - 1]];
      assert Ink([s[|s| - 1]]) == [];
    }
  }

  /** The suggestion has the letters and digits of the lowered name; it is empty if there are none, a slug otherwise. */
  lemma SlugifyGivesSlugs(lower: string -> string, value: string)
    ensures var slug := Slugify(lower, value);
            && Ink(slug) == Ink(lower(value))
            && (slug == "" <==> Ink(lower(value)) == "")
            && (slug != "" ==> InPattern(slug))
  {
    var text := Trim(lower(value));
    InkOfSpaces(lower(value));
    CollapseKeepsInk(text);
    CollapseIsHyphenated(text);
    DropLeadingKeeps(Collapse(text));
    DropTrailingKeeps(DropLeading(Collapse(text)));
    var slug := Slugify(lower, value);
    if slug != "" {
      InkOfTidy(slug);
      PatternMeansTidy(slug);
    }
  }

  lemma {:induction false} CollapseKeepsTidy(s: string)
    requires Hyphenated(s) && NoDouble(s)
    ensures Collapse(s) == s
    decreases |s|
  {
    if s != [] {
      assert s == [s[0]] + s[1..];
      CollapseKeepsTidy(s[1..]);
      if !SlugChar(s[0]) {
        assert s[1..] == [] || SlugChar(s[1]);
        assert DropRun(s) == s[1..];
      }
    }
  }

  lemma TidyIsTrimmed(s: string)
    requires Tidy(s)
    ensures Trimmed(s)
  {
  }

  /** A slug is its own suggestion. */
  lemma SlugifyKeepsSlugs(lower: string -> string, slug: string)
    requires InPattern(slug) && lower(slug) == slug
    ensures Slugify(lower, slug) == slug
  {
    PatternMeansTidy(slug);
    TidyIsTrimmed(slug);
    TrimKeepsTrimmed(slug);
    CollapseKeepsTidy(slug);
  }

  lemma SlugifyIsIdempotent(lower: string -> string, value: string)
    requires lower(Slugify(lower, value)) == Slugify(lower, value)
    ensures Slugify(lower, Slugify(lower, value)) == Slugify(lower, value)
  {
    SlugifyGivesSlugs(lower, value);
    if Slugify(lower, value) != "" {
      SlugifyKeepsSlugs(lower, Slugify(lower, value));
    }
  }

  /** A slug, character by character: 3 to 63 letters a to z, digits and single inner hyphens, and no reserved word. */
  lemma ValidSlugsExactly(slug: string)
    ensures IsValidSlugFormat(slug) <==>
              && 3 <= |slug| <= 63
              && (forall i :: 0 <= i < |slug| ==>
                    97 <= slug[i] as int <= 122 || 48 <= slug[i] as int <= 57 || slug[i] as int == 45)
              && slug[0] != '-' && slug[|slug| - 1] != '-'
              && (forall i :: 0 <= i < |slug| - 1 ==> !(slug[i] == '-' && slug[i + 1] == '-'))
              && slug != "admin" && slug != "api" && slug != "health"
  {
    PatternMeansTidy(slug);
  }

  /** The server takes a suggestion exactly when its length fits and it is not reserved. */
  lemma SuggestionIsValid(lower: string -> string, value: string)
    ensures var slug := Slugify(lower, value);
            IsValidSlugFormat(slug) <==> 3 <= |slug| <= 63 && slug !in RESERVED
  {
    SlugifyGivesSlugs(lower, value);
  }
}
