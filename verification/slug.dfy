/** `slugify`: lower-case the text, drop every character that is neither a
    word character nor a space, then replace each run of spaces by one `-`.
    Lower-casing is modelled on ASCII; `\w` (a regular expression without the
    `u` flag) is ASCII letters, digits and `_`; "space" is the character ' '. */
module Slug {

  import opened Lists

  predicate IsUpper(c: char)
  {
    'A' <= c <= 'Z'
  }

  predicate IsLowerLetter(c: char)
  {
    'a' <= c <= 'z'
  }

  predicate IsDigit(c: char)
  {
    '0' <= c <= '9'
  }

  /** The regular-expression class `\w`. */
  predicate IsWordChar(c: char)
  {
    IsUpper(c) || IsLowerLetter(c) || IsDigit(c) || c == '_'
  }

  /** The characters a slug is made of: `[a-z0-9_-]`. */
  predicate IsSlugChar(c: char)
  {
    IsLowerLetter(c) || IsDigit(c) || c == '_' || c == '-'
  }

  predicate KeptByStrip(c: char)
  {
    IsWordChar(c) || c == ' '
  }

  predicate NotSpace(c: char)
  {
    c != ' '
  }

  predicate NotHyphen(c: char)
  {
    c != '-'
  }

  /** No two adjacent hyphens. */
  predicate NoDoubleHyphen(s: string)
  {
    forall i :: 0 <= i < |s| - 1 ==> !(s[i] == '-' && s[i + 1] == '-')
  }

  predicate HyphenFree(s: string)
  {
    forall i :: 0 <= i < |s| ==> s[i] != '-'
  }

  /** ASCII `toLowerCase` of one character. */
  function ToLowerChar(c: char): (d: char)
    ensures !IsUpper(d)
    ensures IsUpper(c) ==> IsLowerLetter(d) && d as int - c as int == 'a' as int - 'A' as int
    ensures !IsUpper(c) ==> d == c
  {
    if IsUpper(c) then (c as int - 'A' as int + 'a' as int) as char else c
  }

  /** Stage 1: `toLowerCase`. */
  function Lower(s: string): (r: string)
    ensures |r| == |s|
    ensures forall i :: 0 <= i < |s| ==> r[i] == ToLowerChar(s[i])
  {
    if |s| == 0 then "" else [ToLowerChar(s[0])] + Lower(s[1..])
  }

  /** Stage 2: `replace(/[^\w ]+/g, "")`. */
  function StripNonWord(s: string): (r: string)
    ensures forall i :: 0 <= i < |r| ==> KeptByStrip(r[i])
    ensures (forall i :: 0 <= i < |s| ==> !IsUpper(s[i])) ==> forall i :: 0 <= i < |r| ==> !IsUpper(r[i])
  {
    FilterMembers(KeptByStrip, s);
    Filter(KeptByStrip, s)
  }

  /** The text after its leading spaces. */
  function DropSpaces(s: string): (r: string)
    ensures |r| <= |s|
    ensures r == [] || r[0] != ' '
    ensures r == s[|s| - |r|..]
  {
    if |s| > 0 && s[0] == ' ' then DropSpaces(s[1..])
    else
      WholeSlice(s);
      s
  }

  /** Stage 3: `replace(/ +/g, "-")`. */
  function CollapseSpaces(s: string): (r: string)
    ensures |r| <= |s|
    ensures forall i :: 0 <= i < |r| ==> r[i] != ' '
    ensures |s| > 0 ==> |r| > 0 && r[0] == (if s[0] == ' ' then '-' else s[0])
    decreases |s|
  {
    if |s| == 0 then ""
    else if s[0] == ' ' then
      var rest := DropSpaces(s[1..]);
      "-" + CollapseSpaces(rest)
    else
      [s[0]] + CollapseSpaces(s[1..])
  }

  /** `slugify`. */
  function Slugify(text: string): (r: string)
    ensures |r| <= |text|
    ensures forall i :: 0 <= i < |r| ==> IsSlugChar(r[i])
  {
    var u := StripNonWord(Lower(text));
    CollapseAlphabet(u);
    CollapseSpaces(u)
  }

  /** Collapsing turns text over the slug alphabet and the space into text
      over the slug alphabet. */
  lemma {:induction false} CollapseAlphabet(s: string)
    requires forall i :: 0 <= i < |s| ==> IsSlugChar(s[i]) || s[i] == ' '
    ensures forall i :: 0 <= i < |CollapseSpaces(s)| ==> IsSlugChar(CollapseSpaces(s)[i])
    decreases |s|
  {
    if |s| > 0 {
      if s[0] == ' ' {
        var rest := DropSpaces(s[1..]);
        var k := |s[1..]| - |rest|;
        assert forall i :: 0 <= i < |rest| ==> rest[i] == s[1 + k + i];
        CollapseAlphabet(rest);
      } else {
        CollapseAlphabet(s[1..]);
      }
    }
  }

  /** The number of maximal runs of spaces, counted in one left-to-right scan
      that remembers whether the previous character was a space. */
  function RunStarts(s: string, afterSpace: bool): nat
  {
    if |s| == 0 then 0
    else (if s[0] == ' ' && !afterSpace then 1 else 0) + RunStarts(s[1..], s[0] == ' ')
  }

  // ---------------------------------------------------------------------------
  // Lemmas about the stages

  lemma {:induction false} DropSpacesKeepsRest(x: string)
    ensures Filter(NotSpace, DropSpaces(x)) == Filter(NotSpace, x)
    ensures RunStarts(DropSpaces(x), false) == RunStarts(x, true)
    ensures HyphenFree(x) ==> HyphenFree(DropSpaces(x))
  {
    if |x| > 0 && x[0] == ' ' {
      DropSpacesKeepsRest(x[1..]);
    }
  }

  /** Collapsing keeps every non-space character, in order, and adds only hyphens. */
  lemma {:induction false} CollapseKeepsNonSpaces(s: string)
    requires HyphenFree(s)
    ensures Filter(NotHyphen, CollapseSpaces(s)) == Filter(NotSpace, s)
    decreases |s|
  {
    if |s| > 0 {
      if s[0] == ' ' {
        var rest := DropSpaces(s[1..]);
        DropSpacesKeepsRest(s[1..]);
        CollapseKeepsNonSpaces(rest);
        assert ("-" + CollapseSpaces(rest))[1..] == CollapseSpaces(rest);
      } else {
        CollapseKeepsNonSpaces(s[1..]);
        assert ([s[0]] + CollapseSpaces(s[1..]))[1..] == CollapseSpaces(s[1..]);
      }
    }
  }

  /** Each maximal run of spaces becomes exactly one hyphen. */
  lemma {:induction false} CollapseCountsRuns(s: string)
    requires HyphenFree(s)
    ensures multiset(CollapseSpaces(s))['-'] == RunStarts(s, false)
    decreases |s|
  {
    if |s| > 0 {
      if s[0] == ' ' {
        var rest := DropSpaces(s[1..]);
        DropSpacesKeepsRest(s[1..]);
        CollapseCountsRuns(rest);
      } else {
        CollapseCountsRuns(s[1..]);
      }
    }
  }

  /** No two hyphens are adjacent. */
  lemma {:induction false} CollapseNoDoubleHyphen(s: string)
    requires HyphenFree(s)
    ensures NoDoubleHyphen(CollapseSpaces(s))
    decreases |s|
  {
    if |s| > 0 {
      if s[0] == ' ' {
        var rest := DropSpaces(s[1..]);
        DropSpacesKeepsRest(s[1..]);
        CollapseNoDoubleHyphen(rest);
        PrependNoDoubleHyphen('-', CollapseSpaces(rest));
      } else {
        CollapseNoDoubleHyphen(s[1..]);
        PrependNoDoubleHyphen(s[0], CollapseSpaces(s[1..]));
      }
    }
  }

  lemma PrependNoDoubleHyphen(c: char, tail: string)
    requires NoDoubleHyphen(tail)
    requires c == '-' ==> tail == [] || tail[0] != '-'
    ensures NoDoubleHyphen([c] + tail)
  {
    var r := [c] + tail;
    forall i | 0 <= i < |r| - 1
      ensures !(r[i] == '-' && r[i + 1] == '-')
    {
      if i > 0 {
        assert r[i] == tail[i - 1] && r[i + 1] == tail[i];
      }
    }
  }

  /** A trailing space becomes a trailing hyphen. */
  lemma {:induction false} CollapseTrailing(s: string)
    requires |s| > 0 && s[|s| - 1] == ' '
    ensures |CollapseSpaces(s)| > 0 && CollapseSpaces(s)[|CollapseSpaces(s)| - 1] == '-'
    decreases |s|
  {
    if s[0] == ' ' {
      var rest := DropSpaces(s[1..]);
      assert CollapseSpaces(s) == "-" + CollapseSpaces(rest);
      if |rest| > 0 {
        assert rest[|rest| - 1] == s[|s| - 1];
        CollapseTrailing(rest);
      }
    } else {
      var t := s[1..];
      assert |t| > 0 && t[|t| - 1] == ' ';
      assert CollapseSpaces(s) == [s[0]] + CollapseSpaces(t);
      CollapseTrailing(t);
    }
  }

  /** Stripping then dropping spaces leaves exactly the word characters,
      and lower-casing commutes with that selection. */
  lemma {:induction false} WordCharsOfLower(t: string)
    ensures Filter(NotSpace, StripNonWord(Lower(t))) == Lower(Filter(IsWordChar, t))
  {
    if |t| > 0 {
      WordCharsOfLower(t[1..]);
      var c := ToLowerChar(t[0]);
      assert Lower(t)[1..] == Lower(t[1..]);
      assert Lower(t)[0] == c;
      if IsWordChar(t[0]) {
        assert Lower(Filter(IsWordChar, t))[1..] == Lower(Filter(IsWordChar, t[1..]));
        assert StripNonWord(Lower(t)) == [c] + StripNonWord(Lower(t[1..]));
        assert ([c] + StripNonWord(Lower(t[1..])))[1..] == StripNonWord(Lower(t[1..]));
      }
    }
  }

  /** Stripping removes exactly the characters outside `[\w ]`: every other
      character keeps all its occurrences, and stripping works piecewise, so
      the survivors stay in place and in order. */
  lemma StripKeepsKept(s: string, a: string, b: string)
    ensures forall c :: multiset(StripNonWord(s))[c] == if KeptByStrip(c) then multiset(s)[c] else 0
    ensures StripNonWord(a + b) == StripNonWord(a) + StripNonWord(b)
  {
    forall c {
      FilterCount(KeptByStrip, s, c);
    }
    FilterAppend(KeptByStrip, a, b);
  }

  /** A space-free prefix passes through collapsing unchanged. */
  lemma {:induction false} CollapseWord(a: string, s: string)
    requires forall i :: 0 <= i < |a| ==> a[i] != ' '
    ensures CollapseSpaces(a + s) == a + CollapseSpaces(s)
  {
    if |a| > 0 {
      var t := a + s;
      assert t[0] == a[0] && t[0] != ' ';
      assert t[1..] == a[1..] + s;
      assert CollapseSpaces(t) == [a[0]] + CollapseSpaces(a[1..] + s);
      CollapseWord(a[1..], s);
      assert a == [a[0]] + a[1..];
    } else {
      assert a + s == s;
    }
  }

  /** Two words side by side contain no space to collapse. */
  lemma WordsCollapse(a: string, b: string)
    requires IsWord(a) && IsWord(b)
    ensures CollapseSpaces(a + b) == a + b
  {
    CollapseWord(a + b, "");
    assert a + b + "" == a + b;
  }

  /** A run of spaces followed by a non-space becomes a single hyphen. */
  lemma {:induction false} CollapseSpaceRun(spaces: string, b: string)
    requires |spaces| > 0 && forall i :: 0 <= i < |spaces| ==> spaces[i] == ' '
    requires b == [] || b[0] != ' '
    ensures CollapseSpaces(spaces + b) == "-" + CollapseSpaces(b)
  {
    assert (spaces + b)[1..] == spaces[1..] + b;
    DropSpacesRun(spaces[1..], b);
  }

  lemma {:induction false} DropSpacesRun(spaces: string, b: string)
    requires forall i :: 0 <= i < |spaces| ==> spaces[i] == ' '
    requires b == [] || b[0] != ' '
    ensures DropSpaces(spaces + b) == b
  {
    if |spaces| > 0 {
      assert (spaces + b)[1..] == spaces[1..] + b;
      DropSpacesRun(spaces[1..], b);
    } else {
      assert spaces + b == b;
    }
  }

  // ---------------------------------------------------------------------------
  // Lemmas about `slugify`

  /** A slug holds no space and no two adjacent hyphens. */
  lemma SlugShape(text: string)
    ensures forall i :: 0 <= i < |Slugify(text)| ==> Slugify(text)[i] != ' '
    ensures NoDoubleHyphen(Slugify(text))
  {
    CollapseNoDoubleHyphen(StripNonWord(Lower(text)));
  }

  /** Letters, digits and `_` of the input survive in order, lower-cased; every
      other non-space character is dropped, and the only other characters of
      the slug are the hyphens. */
  lemma SlugKeepsWordChars(text: string)
    ensures Filter(NotHyphen, Slugify(text)) == Lower(Filter(IsWordChar, text))
  {
    var u := StripNonWord(Lower(text));
    CollapseKeepsNonSpaces(u);
    WordCharsOfLower(text);
  }

  /** The slug has one hyphen per maximal run of spaces left after stripping. */
  lemma SlugHyphens(text: string)
    ensures multiset(Slugify(text))['-'] == RunStarts(StripNonWord(Lower(text)), false)
  {
    CollapseCountsRuns(StripNonWord(Lower(text)));
  }

  /** There is no trimming: a leading or trailing space yields a leading or
      trailing hyphen. */
  lemma NoTrimming(text: string)
    requires |text| > 0
    ensures text[0] == ' ' ==> |Slugify(text)| > 0 && Slugify(text)[0] == '-'
    ensures text[|text| - 1] == ' ' ==> |Slugify(text)| > 0 && Slugify(text)[|Slugify(text)| - 1] == '-'
  {
    var l := Lower(text);
    assert l == l[..|l| - 1] + [l[|l| - 1]];
    FilterAppend(KeptByStrip, l[..|l| - 1], [l[|l| - 1]]);
    if text[|text| - 1] == ' ' {
      var u := StripNonWord(l);
      assert u[|u| - 1] == ' ';
      CollapseTrailing(u);
    }
  }

  // ---------------------------------------------------------------------------
  // Worked examples

  lemma {:induction false} LowerAppend(a: string, b: string)
    ensures Lower(a + b) == Lower(a) + Lower(b)
  {
  }

  /** Text without upper-case letters is its own lower-case form. */
  lemma LowerWord(w: string)
    requires forall i :: 0 <= i < |w| ==> IsLowerLetter(w[i])
    ensures Lower(w) == w
  {
  }

  /** Lower-casing a capitalised word changes only its first letter. */
  lemma CapitalizedWord(t: string, u: string)
    requires |t| > 0 && IsUpper(t[0])
    requires forall i :: 1 <= i < |t| ==> IsLowerLetter(t[i])
    requires u == [ToLowerChar(t[0])] + t[1..]
    ensures Lower(t) == u
  {
    LowerWord(t[1..]);
  }

  /** Text made of word characters only. */
  predicate IsWord(a: string)
  {
    forall i :: 0 <= i < |a| ==> IsWordChar(a[i])
  }

  predicate IsSpaces(sp: string)
  {
    |sp| > 0 && forall i :: 0 <= i < |sp| ==> sp[i] == ' '
  }

  /** Characters that the strip stage removes, here after the last word. */
  predicate IsJunk(j: string)
  {
    forall i :: 0 <= i < |j| ==> !KeptByStrip(j[i])
  }

  lemma LowerOfTwoWords(a: string, sp: string, b: string, junk: string)
    requires IsSpaces(sp) && IsJunk(junk)
    ensures Lower(a + (sp + (b + junk))) == Lower(a) + (sp + (Lower(b) + junk))
  {
    LowerAppend(a, sp + (b + junk));
    LowerAppend(sp, b + junk);
    LowerAppend(b, junk);
    assert Lower(sp) == sp;
    assert Lower(junk) == junk;
  }

  lemma StripOfTwoWords(a: string, sp: string, b: string, junk: string)
    requires IsWord(a) && IsWord(b) && IsSpaces(sp) && IsJunk(junk)
    ensures StripNonWord(a + (sp + (b + junk))) == a + (sp + b)
  {
    var u := a + (sp + b);
    assert a + (sp + (b + junk)) == u + junk;
    FilterAppend(KeptByStrip, u, junk);
    FilterAll(KeptByStrip, u);
    FilterNone(KeptByStrip, junk);
    assert u + [] == u;
  }

  lemma CollapseOfTwoWords(a: string, sp: string, b: string)
    requires IsWord(a) && |b| > 0 && IsWord(b) && IsSpaces(sp)
    ensures CollapseSpaces(a + (sp + b)) == a + ("-" + b)
  {
    CollapseWord(a, sp + b);
    CollapseSpaceRun(sp, b);
    CollapseWord(b, "");
    assert b + "" == b;
  }

  lemma LowerKeepsWord(a: string)
    requires IsWord(a)
    ensures IsWord(Lower(a))
  {
  }

  /** Two words separated by a run of spaces, the second followed by
      characters that are neither word characters nor spaces. */
  lemma TwoWords(a: string, sp: string, b: string, junk: string)
    requires IsWord(a) && |b| > 0 && IsWord(b) && IsSpaces(sp) && IsJunk(junk)
    ensures Slugify(a + (sp + (b + junk))) == Lower(a) + ("-" + Lower(b))
  {
    LowerOfTwoWords(a, sp, b, junk);
    LowerKeepsWord(a);
    LowerKeepsWord(b);
    StripOfTwoWords(Lower(a), sp, Lower(b), junk);
    CollapseOfTwoWords(Lower(a), sp, Lower(b));
  }

  /** The unit-test cases of `slugify`. Each input is cut into its words
      and its separators so that `TwoWords` applies; the facts about the
      literals are kept in their own lemmas so that each proof stays small. */
  lemma HelloWorldCase(t: string)
    requires t == "Hello World"
    ensures Slugify(t) == "hello-world"
  {
    var a, sp, b, junk := t[..5], t[5..6], t[6..], t[11..];
    HelloWorldParts(t, a, sp, b, junk);
    TwoWords(a, sp, b, junk);
  }

  lemma HelloWorldParts(t: string, a: string, sp: string, b: string, junk: string)
    requires t == "Hello World"
    requires a == t[..5] && sp == t[5..6] && b == t[6..] && junk == t[11..]
    ensures t == a + (sp + (b + junk))
    ensures IsWord(a) && |b| > 0 && IsWord(b) && IsSpaces(sp) && IsJunk(junk)
    ensures Lower(a) + ("-" + Lower(b)) == "hello-world"
  {
    CapitalizedWord(a, "hello");
    CapitalizedWord(b, "world");
    assert "hello" + ("-" + "world") == "hello-world";
  }

  lemma ProductNameCase(t: string)
    requires t == "Product Name!"
    ensures Slugify(t) == "product-name"
  {
    var a, sp, b, junk := t[..7], t[7..8], t[8..12], t[12..];
    ProductNameParts(t, a, sp, b, junk);
    TwoWords(a, sp, b, junk);
  }

  lemma ProductNameParts(t: string, a: string, sp: string, b: string, junk: string)
    requires t == "Product Name!"
    requires a == t[..7] && sp == t[7..8] && b == t[8..12] && junk == t[12..]
    ensures t == a + (sp + (b + junk))
    ensures IsWord(a) && |b| > 0 && IsWord(b) && IsSpaces(sp) && IsJunk(junk)
    ensures Lower(a) + ("-" + Lower(b)) == "product-name"
  {
    CapitalizedWord(a, "product");
    CapitalizedWord(b, "name");
    assert "product" + ("-" + "name") == "product-name";
  }

  lemma MultipleSpacesCase(t: string)
    requires t == "Multiple   Spaces"
    ensures Slugify(t) == "multiple-spaces"
  {
    var a, sp, b, junk := t[..8], t[8..11], t[11..], t[17..];
    MultipleSpacesParts(t, a, sp, b, junk);
    TwoWords(a, sp, b, junk);
  }

  lemma MultipleSpacesParts(t: string, a: string, sp: string, b: string, junk: string)
    requires t == "Multiple   Spaces"
    requires a == t[..8] && sp == t[8..11] && b == t[11..] && junk == t[17..]
    ensures t == a + (sp + (b + junk))
    ensures IsWord(a) && |b| > 0 && IsWord(b) && IsSpaces(sp) && IsJunk(junk)
    ensures Lower(a) + ("-" + Lower(b)) == "multiple-spaces"
  {
    CapitalizedWord(a, "multiple");
    CapitalizedWord(b, "spaces");
    assert "multiple" + ("-" + "spaces") == "multiple-spaces";
  }

  /** Leading and trailing spaces are kept as hyphens: `' a '` becomes `'-a-'`. */
  lemma SpacesAroundLetter(t: string)
    requires t == " a "
    ensures Slugify(t) == "-a-"
  {
    SpacesAroundLetterParts(t);
    SpacedWord(t[..1], t[1..2], t[2..]);
  }

  lemma SpacesAroundLetterParts(t: string)
    requires t == " a "
    ensures t == t[..1] + (t[1..2] + t[2..])
    ensures IsSpaces(t[..1]) && IsWord(t[1..2]) && IsSpaces(t[2..])
    ensures "-" + (Lower(t[1..2]) + "-") == "-a-"
  {
    LowerWord(t[1..2]);
  }

  /** A word between two runs of spaces gets a hyphen on each side. */
  lemma SpacedWord(sp: string, a: string, sp2: string)
    requires |sp| > 0 && IsSpaces(sp) && |a| > 0 && IsWord(a) && |sp2| > 0 && IsSpaces(sp2)
    ensures Slugify(sp + (a + sp2)) == "-" + (Lower(a) + "-")
  {
    var la := Lower(a);
    LowerOfSpaced(sp, a, sp2);
    LowerKeepsWord(a);
    FilterAll(KeptByStrip, sp + (la + sp2));
    CollapseOfSpaced(sp, la, sp2);
  }

  lemma LowerOfSpaced(sp: string, a: string, sp2: string)
    requires IsSpaces(sp) && IsSpaces(sp2)
    ensures Lower(sp + (a + sp2)) == sp + (Lower(a) + sp2)
  {
    LowerAppend(sp, a + sp2);
    LowerAppend(a, sp2);
    assert Lower(sp) == sp;
    assert Lower(sp2) == sp2;
  }

  lemma CollapseOfSpaced(sp: string, a: string, sp2: string)
    requires |sp| > 0 && IsSpaces(sp) && |a| > 0 && IsWord(a) && |sp2| > 0 && IsSpaces(sp2)
    ensures CollapseSpaces(sp + (a + sp2)) == "-" + (a + "-")
  {
    var rest := a + sp2;
    assert rest[0] == a[0] && IsWordChar(a[0]);
    CollapseSpaceRun(sp, rest);
    CollapseWord(a, sp2);
    assert sp2 + "" == sp2;
    CollapseSpaceRun(sp2, "");
    assert CollapseSpaces(sp2) == "-";
  }

  /** Hyphens are stripped before spaces become hyphens. */
  lemma HyphenDropped(a: string, b: string)
    requires IsWord(a) && IsWord(b)
    ensures Slugify(a + ("-" + b)) == Lower(a) + Lower(b)
  {
    var la, lb := Lower(a), Lower(b);
    LowerOfHyphenated(a, b);
    LowerKeepsWord(a);
    LowerKeepsWord(b);
    StripOfHyphenated(la, lb);
    WordsCollapse(la, lb);
  }

  lemma LowerOfHyphenated(a: string, b: string)
    ensures Lower(a + ("-" + b)) == Lower(a) + ("-" + Lower(b))
  {
    LowerAppend(a, "-" + b);
    LowerAppend("-", b);
  }

  lemma StripOfHyphenated(a: string, b: string)
    requires IsWord(a) && IsWord(b)
    ensures StripNonWord(a + ("-" + b)) == a + b
  {
    FilterAppend(KeptByStrip, a, "-" + b);
    FilterAppend(KeptByStrip, "-", b);
    FilterAll(KeptByStrip, a);
    FilterAll(KeptByStrip, b);
    FilterNone(KeptByStrip, "-");
  }

  /** `slugify` is not idempotent: slugifying the slug of "hello world" drops
      its hyphen. */
  lemma NotIdempotent(t: string)
    requires t == "hello world"
    ensures Slugify(t) == "hello-world"
    ensures Slugify(Slugify(t)) == "helloworld"
    ensures Slugify(Slugify(t)) != Slugify(t)
  {
    var a, sp, b := t[..5], t[5..6], t[6..];
    NotIdempotentParts(t, a, sp, b);
    TwoWords(a, sp, b, []);
    HyphenDropped(a, b);
  }

  lemma NotIdempotentParts(t: string, a: string, sp: string, b: string)
    requires t == "hello world"
    requires a == t[..5] && sp == t[5..6] && b == t[6..]
    ensures t == a + (sp + (b + []))
    ensures IsWord(a) && |b| > 0 && IsWord(b) && IsSpaces(sp) && IsJunk([])
    ensures Lower(a) == a && Lower(b) == b
    ensures a + ("-" + b) == "hello-world" && a + b == "helloworld"
  {
    LowerWord(a);
    LowerWord(b);
    NotIdempotentJoins(t, a, b);
  }

  lemma NotIdempotentJoins(t: string, a: string, b: string)
    requires t == "hello world" && a == t[..5] && b == t[6..]
    ensures a + ("-" + b) == "hello-world" && a + b == "helloworld"
  {
  }
}
