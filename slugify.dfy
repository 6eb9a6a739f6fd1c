/** The slug codec of src/utils/slugify.ts: `slugify` turns a note title into
    a URL fragment, `noteSharePath` builds the public share path of a note.

    `slugify` is a chain of five string rewrites, modelled one function each:
    lower-case, trim, delete what is outside `[\w\s-]`, turn every run of
    `[\s_-]` into one hyphen, strip hyphens at both ends. JavaScript's `\w`
    is ASCII-only, so accented letters are deleted, not transliterated. */
module Slugify {
  import opened Common

  predicate IsUpper(c: char) { 'A' <= c <= 'Z' }

  /** ASCII letters and digits. */
  predicate IsAlnum(c: char) { 'a' <= c <= 'z' || 'A' <= c <= 'Z' || '0' <= c <= '9' }

  /** JavaScript's `\w`. */
  predicate IsWordChar(c: char) { IsAlnum(c) || c == '_' }

  /** The characters `/[^\w\s-]/g` leaves in place. */
  predicate IsKept(c: char) { IsWordChar(c) || IsSpace(c) || c == '-' }

  /** The characters of the class `[\s_-]`. */
  predicate IsRunChar(c: char) { IsSpace(c) || c == '_' || c == '-' }

  predicate IsSlugChar(c: char) { 'a' <= c <= 'z' || '0' <= c <= '9' || c == '-' }

  predicate NoDoubleHyphen(s: string) {
    forall k :: 0 <= k < |s| - 1 ==> !(s[k] == '-' && s[k + 1] == '-')
  }

  /** What every result of `Slugify` looks like. */
  predicate IsSlug(s: string) {
    && (forall k :: 0 <= k < |s| ==> IsSlugChar(s[k]))
    && (s != [] ==> s[0] != '-' && s[|s| - 1] != '-')
    && NoDoubleHyphen(s)
  }

  /** The ASCII letters and digits of a string, in order. */
  function Letters(s: string): string {
    Filter(s, IsAlnum)
  }

  // ---------------------------------------------------------------------
  // The five steps

  function LowerChar(c: char): (r: char)
    ensures !IsUpper(r)
    ensures IsAlnum(r) <==> IsAlnum(c)
    ensures !IsUpper(c) ==> r == c
  {
    if IsUpper(c) then (c as int + 32) as char else c
  }

  /** `toLowerCase`, on the ASCII letters. */
  function Lower(s: string): (r: string)
    ensures |r| == |s|
    ensures forall k :: 0 <= k < |s| ==> r[k] == LowerChar(s[k])
  {
    seq(|s|, k requires 0 <= k < |s| => LowerChar(s[k]))
  }

  /** `.replace(/[^\w\s-]/g, '')`. */
  function DeleteOthers(s: string): string {
    Filter(s, IsKept)
  }

  /** `.replace(/[\s_-]+/g, '-')`, scanning left to right; `inRun` says the
      previous character belonged to a run that has already become a hyphen. */
  function CollapseRuns(s: string, inRun: bool): string {
    if s == [] then []
    else if IsRunChar(s[0]) then
      if inRun then CollapseRuns(s[1..], true) else "-" + CollapseRuns(s[1..], true)
    else [s[0]] + CollapseRuns(s[1..], false)
  }

  /** The `^-+` half of `.replace(/^-+|-+$/g, '')`. */
  function DropLeadingHyphens(s: string): (r: string)
    ensures |r| <= |s| && r == s[|s| - |r|..]
    ensures r == [] || r[0] != '-'
  {
    if s != [] && s[0] == '-' then DropLeadingHyphens(s[1..]) else s
  }

  /** The `-+$` half of `.replace(/^-+|-+$/g, '')`. */
  function DropTrailingHyphens(s: string): (r: string)
    ensures |r| <= |s| && r == s[..|r|]
    ensures r == [] || r[|r| - 1] != '-'
  {
    if s != [] && s[|s| - 1] == '-' then DropTrailingHyphens(s[..|s| - 1]) else s
  }

  function StripHyphens(s: string): string {
    DropTrailingHyphens(DropLeadingHyphens(s))
  }

  /** `slugify(text)`. */
  function Slugify(text: string): (slug: string)
    ensures IsSlug(slug)
  {
    SlugShape(text);
    StripHyphens(CollapseRuns(DeleteOthers(Trim(Lower(text))), false))
  }

  // ---------------------------------------------------------------------
  // Why the result is a slug

  lemma SlugShape(text: string)
    ensures IsSlug(StripHyphens(CollapseRuns(DeleteOthers(Trim(Lower(text))), false)))
  {
    var kept := DeleteOthers(Trim(Lower(text)));
    KeptIsClean(text);
    CollapseShape(kept, false);
    var collapsed := CollapseRuns(kept, false);
    forall k | 0 <= k < |collapsed| ensures IsSlugChar(collapsed[k]) {
      if collapsed[k] != '-' {
        CleanChar(collapsed[k]);
      }
    }
    StripKeepsSlug(collapsed);
  }

  lemma CleanChar(c: char)
    requires IsKept(c) && !IsUpper(c) && !IsRunChar(c)
    ensures IsSlugChar(c)
  {
  }

  lemma KeptIsClean(text: string)
    ensures forall c :: c in DeleteOthers(Trim(Lower(text))) ==> IsKept(c) && !IsUpper(c)
  {
    var l := Lower(text);
    var t := Trim(l);
    forall c | c in t ensures !IsUpper(c) {
      var k :| 0 <= k < |t| && t[k] == c;
      assert t[k] == l[TrimOffset(l) + k];
    }
  }

  /** A collapsed string holds hyphens and non-run characters of its input,
      never two hyphens in a row, and no leading hyphen after a run. */
  lemma {:induction false} CollapseShape(s: string, inRun: bool)
    ensures forall k :: 0 <= k < |CollapseRuns(s, inRun)| ==>
      CollapseRuns(s, inRun)[k] == '-' || (CollapseRuns(s, inRun)[k] in s && !IsRunChar(CollapseRuns(s, inRun)[k]))
    ensures NoDoubleHyphen(CollapseRuns(s, inRun))
    ensures inRun && CollapseRuns(s, inRun) != [] ==> CollapseRuns(s, inRun)[0] != '-'
  {
    if s != [] {
      CollapseShape(s[1..], IsRunChar(s[0]));
      var tail := CollapseRuns(s[1..], IsRunChar(s[0]));
      assert forall c :: c in s[1..] ==> c in s;
      if IsRunChar(s[0]) && !inRun {
        assert CollapseRuns(s, inRun) == "-" + tail;
      } else if !IsRunChar(s[0]) {
        assert CollapseRuns(s, inRun) == [s[0]] + tail;
      }
    }
  }

  lemma StripKeepsSlug(c: string)
    requires forall k :: 0 <= k < |c| ==> IsSlugChar(c[k])
    requires NoDoubleHyphen(c)
    ensures IsSlug(StripHyphens(c))
  {
    var d := DropLeadingHyphens(c);
    var r := DropTrailingHyphens(d);
    assert (forall k :: 0 <= k < |r| ==> IsSlugChar(r[k])) && NoDoubleHyphen(r) by {
      var off := |c| - |d|;
      assert r == c[off..off + |r|];
      SliceShape(c, off, off + |r|);
    }
    assert r != [] ==> r[0] != '-' && r[|r| - 1] != '-' by {
      if r != [] {
        assert r[0] == d[0];
      }
    }
  }

  /** A slice of slug characters without double hyphens is one too. */
  lemma SliceShape(c: string, i: nat, j: nat)
    requires i <= j <= |c|
    requires forall k :: 0 <= k < |c| ==> IsSlugChar(c[k])
    requires NoDoubleHyphen(c)
    ensures forall k :: 0 <= k < j - i ==> IsSlugChar(c[i..j][k])
    ensures NoDoubleHyphen(c[i..j])
  {
    var r := c[i..j];
    forall k | 0 <= k < |r| - 1 ensures !(r[k] == '-' && r[k + 1] == '-') {
      assert r[k] == c[i + k] && r[k + 1] == c[i + k + 1];
    }
  }

  // ---------------------------------------------------------------------
  // Idempotence

  lemma {:induction false} CollapseFixesSlug(s: string, inRun: bool)
    requires forall k :: 0 <= k < |s| ==> IsSlugChar(s[k])
    requires NoDoubleHyphen(s)
    requires inRun ==> s == [] || s[0] != '-'
    ensures CollapseRuns(s, inRun) == s
  {
    if s != [] {
      CollapseFixesSlug(s[1..], s[0] == '-');
      assert s == [s[0]] + s[1..];
    }
  }

  /** A slug is its own slug. */
  lemma SlugifyFixesSlug(s: string)
    requires IsSlug(s)
    ensures Slugify(s) == s
  {
    SlugKeptUnchanged(s);
    CollapseFixesSlug(s, false);
    StripUnchanged(s);
  }

  /** Lower-casing, trimming and deleting leave a slug as it is. */
  lemma SlugKeptUnchanged(s: string)
    requires IsSlug(s)
    ensures DeleteOthers(Trim(Lower(s))) == s
  {
    LowerUnchanged(s);
    assert s != [] ==> !IsSpace(s[0]) && !IsSpace(s[|s| - 1]);
    TrimUnchanged(s);
    FilterKeepsAll(s, IsKept);
  }

  lemma LowerUnchanged(s: string)
    requires forall k :: 0 <= k < |s| ==> !IsUpper(s[k])
    ensures Lower(s) == s
  {
  }

  lemma TrimUnchanged(s: string)
    requires s != [] ==> !IsSpace(s[0]) && !IsSpace(s[|s| - 1])
    ensures Trim(s) == s
  {
    assert TrimStart(s) == s;
    assert TrimEnd(s) == s;
  }

  /** `slugify(slugify(t)) == slugify(t)`. */
  lemma SlugifyIdempotent(text: string)
    ensures Slugify(Slugify(text)) == Slugify(text)
  {
    SlugifyFixesSlug(Slugify(text));
  }

  // ---------------------------------------------------------------------
  // What survives: the letters and digits, lower-cased, in order

  lemma {:induction false} LettersLower(t: string)
    ensures Letters(Lower(t)) == Lower(Letters(t))
  {
    if t != [] {
      var l := Lower(t);
      assert l[0] == LowerChar(t[0]);
      assert l[1..] == Lower(t[1..]);
      LettersLower(t[1..]);
      if IsAlnum(t[0]) {
        assert Letters(t) == [t[0]] + Letters(t[1..]);
        LowerAppend([t[0]], Letters(t[1..]));
        assert Lower([t[0]]) == [LowerChar(t[0])];
      }
    }
  }

  lemma {:induction false} LettersTrimStart(s: string)
    ensures Letters(TrimStart(s)) == Letters(s)
  {
    if s != [] && IsSpace(s[0]) {
      LettersTrimStart(s[1..]);
      assert !IsAlnum(s[0]);
    }
  }

  lemma {:induction false} LettersTrimEnd(s: string)
    ensures Letters(TrimEnd(s)) == Letters(s)
  {
    if s != [] && IsSpace(s[|s| - 1]) {
      var p := s[..|s| - 1];
      LettersTrimEnd(p);
      assert s == p + [s[|s| - 1]];
      FilterAppend(p, [s[|s| - 1]], IsAlnum);
      assert !IsAlnum(s[|s| - 1]);
      assert Filter([s[|s| - 1]], IsAlnum) == [];
    }
  }

  lemma LettersTrim(x: string)
    ensures Letters(Trim(x)) == Letters(x)
  {
    LettersTrimStart(x);
    LettersTrimEnd(TrimStart(x));
  }

  lemma {:induction false} LettersCollapse(s: string, inRun: bool)
    ensures Letters(CollapseRuns(s, inRun)) == Letters(s)
  {
    if s != [] {
      LettersCollapse(s[1..], IsRunChar(s[0]));
      var tail := CollapseRuns(s[1..], IsRunChar(s[0]));
      if IsRunChar(s[0]) && !inRun {
        assert Filter("-" + tail, IsAlnum) == Filter(tail, IsAlnum);
      }
    }
  }

  lemma {:induction false} LettersDropLeading(s: string)
    ensures Letters(DropLeadingHyphens(s)) == Letters(s)
  {
    if s != [] && s[0] == '-' {
      LettersDropLeading(s[1..]);
    }
  }

  lemma {:induction false} LettersDropTrailing(s: string)
    ensures Letters(DropTrailingHyphens(s)) == Letters(s)
  {
    if s != [] && s[|s| - 1] == '-' {
      LettersDropTrailing(s[..|s| - 1]);
      assert s == s[..|s| - 1] + [s[|s| - 1]];
      FilterAppend(s[..|s| - 1], [s[|s| - 1]], IsAlnum);
    }
  }

  /** Deleting the hyphens of a slug gives the title's ASCII letters and digits,
      lower-cased and in their order: nothing else survives and nothing of
      them is lost. */
  lemma SlugifyLetters(text: string)
    ensures Letters(Slugify(text)) == Lower(Letters(text))
  {
    var l := Lower(text);
    var t := Trim(l);
    var kept := DeleteOthers(t);
    var collapsed := CollapseRuns(kept, false);
    LettersLower(text);
    LettersTrim(l);
    FilterNarrow(t, IsKept, IsAlnum);
    LettersCollapse(kept, false);
    LettersDropLeading(collapsed);
    LettersDropTrailing(DropLeadingHyphens(collapsed));
  }

  /** The slug is empty exactly when the title has no ASCII letter or digit:
      empty, blank and punctuation-only titles give "". */
  lemma SlugifyEmptyIff(text: string)
    ensures Slugify(text) == "" <==> Letters(text) == ""
  {
    var slug := Slugify(text);
    SlugifyLetters(text);
    if slug != "" {
      assert IsAlnum(slug[0]);
      assert slug[0] in Letters(slug);
    }
  }

  // ---------------------------------------------------------------------
  // Titles made of words

  /** A non-empty run of ASCII letters and digits. */
  predicate IsWord(w: string) {
    w != [] && forall k :: 0 <= k < |w| ==> IsAlnum(w[k])
  }

  function LowerAll(words: seq<string>): (r: seq<string>)
    ensures |r| == |words| && forall i :: 0 <= i < |words| ==> r[i] == Lower(words[i])
  {
    seq(|words|, i requires 0 <= i < |words| => Lower(words[i]))
  }

  /** A title of words separated by single spaces, followed by characters the
      slug deletes, becomes its lower-cased words joined by hyphens; for
      instance "My Favorite Book!" becomes "my-favorite-book". */
  lemma SlugifyWords(words: seq<string>, tail: string)
    requires |words| >= 1 && forall i :: 0 <= i < |words| ==> IsWord(words[i])
    requires forall k :: 0 <= k < |tail| ==> !IsKept(tail[k])
    ensures Slugify(Join(words, ' ') + tail) == Join(LowerAll(words), '-')
  {
    KeptTitle(words, tail);
    CollapsedTitle(words);
  }

  /** The first three steps leave the lower-cased words separated by spaces. */
  lemma KeptTitle(words: seq<string>, tail: string)
    requires |words| >= 1 && forall i :: 0 <= i < |words| ==> IsWord(words[i])
    requires forall k :: 0 <= k < |tail| ==> !IsKept(tail[k])
    ensures DeleteOthers(Trim(Lower(Join(words, ' ') + tail))) == Join(LowerAll(words), ' ')
  {
    var lx := Join(LowerAll(words), ' ');
    LowerTitle(words, tail);
    LowerWords(words);
    DeleteTitle(LowerAll(words), tail);
    TrimTitle(lx, tail);
  }

  /** The last two steps turn the spaces into hyphens and keep the ends. */
  lemma CollapsedTitle(words: seq<string>)
    requires |words| >= 1 && forall i :: 0 <= i < |words| ==> IsWord(words[i])
    ensures StripHyphens(CollapseRuns(Join(LowerAll(words), ' '), false)) == Join(LowerAll(words), '-')
  {
    LowerWords(words);
    CollapseJoin(LowerAll(words), false);
    StripJoin(LowerAll(words));
  }

  lemma LowerWords(words: seq<string>)
    requires forall i :: 0 <= i < |words| ==> IsWord(words[i])
    ensures forall i :: 0 <= i < |words| ==>
      IsWord(LowerAll(words)[i]) && forall k :: 0 <= k < |LowerAll(words)[i]| ==> !IsUpper(LowerAll(words)[i][k])
  {
  }

  lemma LowerTitle(words: seq<string>, tail: string)
    requires |words| >= 1
    requires forall k :: 0 <= k < |tail| ==> !IsKept(tail[k])
    ensures Lower(Join(words, ' ') + tail) == Join(LowerAll(words), ' ') + tail
  {
    LowerAppend(Join(words, ' '), tail);
    LowerJoin(words, ' ');
    assert Lower(tail) == tail;
  }

  lemma TrimTitle(lx: string, tail: string)
    requires lx != [] && IsAlnum(lx[0]) && IsAlnum(lx[|lx| - 1])
    requires forall k :: 0 <= k < |tail| ==> !IsKept(tail[k])
    ensures Trim(lx + tail) == lx + tail
  {
    var x := lx + tail;
    assert !IsSpace(x[0]) by {
      assert x[0] == lx[0];
    }
    assert !IsSpace(x[|x| - 1]) by {
      if tail == [] {
        assert x[|x| - 1] == lx[|lx| - 1];
      } else {
        assert x[|x| - 1] == tail[|tail| - 1];
        assert !IsKept(tail[|tail| - 1]);
      }
    }
    TrimUnchanged(x);
  }

  lemma DeleteTitle(lowerWords: seq<string>, tail: string)
    requires |lowerWords| >= 1 && forall i :: 0 <= i < |lowerWords| ==> IsWord(lowerWords[i])
    requires forall k :: 0 <= k < |tail| ==> !IsKept(tail[k])
    ensures DeleteOthers(Join(lowerWords, ' ') + tail) == Join(lowerWords, ' ')
    ensures var lx := Join(lowerWords, ' '); lx != [] && IsAlnum(lx[0]) && IsAlnum(lx[|lx| - 1])
  {
    var lx := Join(lowerWords, ' ');
    JoinShape(lowerWords, ' ');
    FilterAppend(lx, tail, IsKept);
    FilterKeepsAll(lx, IsKept);
    FilterDropsAll(tail, IsKept);
  }

  lemma StripJoin(words: seq<string>)
    requires |words| >= 1 && forall i :: 0 <= i < |words| ==> IsWord(words[i])
    ensures StripHyphens(Join(words, '-')) == Join(words, '-')
  {
    JoinShape(words, '-');
    StripUnchanged(Join(words, '-'));
  }

  lemma StripUnchanged(s: string)
    requires s != [] ==> s[0] != '-' && s[|s| - 1] != '-'
    ensures StripHyphens(s) == s
  {
    assert DropLeadingHyphens(s) == s;
    assert DropTrailingHyphens(s) == s;
  }

  lemma LowerAppend(a: string, b: string)
    ensures Lower(a + b) == Lower(a) + Lower(b)
  {
  }

  lemma {:induction false} LowerJoin(words: seq<string>, sep: char)
    requires |words| >= 1 && !IsUpper(sep)
    ensures Lower(Join(words, sep)) == Join(LowerAll(words), sep)
    decreases |words|
  {
    if |words| > 1 {
      LowerJoin(words[1..], sep);
      LowerAppend(words[0] + [sep], Join(words[1..], sep));
      LowerAppend(words[0], [sep]);
      assert LowerAll(words)[1..] == LowerAll(words[1..]);
    }
  }

  /** The ends of a join of words are letters or digits; everything else in it
      is a letter, a digit or the separator. */
  lemma {:induction false} JoinShape(words: seq<string>, sep: char)
    requires |words| >= 1 && forall i :: 0 <= i < |words| ==> IsWord(words[i])
    ensures var j := Join(words, sep);
      j != [] && IsAlnum(j[0]) && IsAlnum(j[|j| - 1])
      && forall k :: 0 <= k < |j| ==> j[k] == sep || IsAlnum(j[k])
    decreases |words|
  {
    if |words| > 1 {
      JoinShape(words[1..], sep);
      var w := words[0];
      var rest := Join(words[1..], sep);
      var j := w + [sep] + rest;
      forall k | 0 <= k < |j| ensures j[k] == sep || IsAlnum(j[k]) {
        if k < |w| {
          assert j[k] == w[k];
        } else if k > |w| {
          assert j[k] == rest[k - |w| - 1];
        }
      }
    }
  }

  /** A word without run characters passes through the collapse unchanged. */
  lemma {:induction false} CollapseWord(w: string, rest: string, inRun: bool)
    requires w != [] && forall k :: 0 <= k < |w| ==> !IsRunChar(w[k])
    ensures CollapseRuns(w + rest, inRun) == w + CollapseRuns(rest, false)
  {
    assert (w + rest)[0] == w[0] && (w + rest)[1..] == w[1..] + rest;
    if |w| > 1 {
      CollapseWord(w[1..], rest, false);
    }
  }

  lemma {:induction false} CollapseJoin(words: seq<string>, inRun: bool)
    requires |words| >= 1
    requires forall i :: 0 <= i < |words| ==> IsWord(words[i]) && forall k :: 0 <= k < |words[i]| ==> !IsUpper(words[i][k])
    ensures CollapseRuns(Join(words, ' '), inRun) == Join(words, '-')
    decreases |words|
  {
    var w := words[0];
    if |words| == 1 {
      CollapseWord(w, "", inRun);
      assert w + "" == w;
    } else {
      var rest := Join(words[1..], ' ');
      calc {
        CollapseRuns(Join(words, ' '), inRun);
        { assert Join(words, ' ') == w + ([' '] + rest); }
        CollapseRuns(w + ([' '] + rest), inRun);
        { CollapseWord(w, [' '] + rest, inRun); }
        w + CollapseRuns([' '] + rest, false);
        { JoinShape(words[1..], ' ');
          CollapseAfterSpace(rest); }
        w + ("-" + CollapseRuns(rest, false));
        { CollapseJoin(words[1..], false); }
        w + ("-" + Join(words[1..], '-'));
        Join(words, '-');
      }
    }
  }

  /** A space before a word becomes one hyphen. */
  lemma CollapseAfterSpace(rest: string)
    requires rest != [] && !IsRunChar(rest[0])
    ensures CollapseRuns([' '] + rest, false) == "-" + CollapseRuns(rest, false)
  {
    assert ([' '] + rest)[1..] == rest;
    assert CollapseRuns(rest, true) == [rest[0]] + CollapseRuns(rest[1..], false);
  }

  // ---------------------------------------------------------------------
  // The share path

  /** `id.slice(-6)`: the last six characters, or the whole id when shorter. */
  function LastSix(id: string): (r: string)
    ensures |r| == if |id| < 6 then |id| else 6
    ensures r == id[|id| - |r|..]
  {
    if |id| >= 6 then id[|id| - 6..] else id
  }

  /** `noteSharePath(category, title, id)`. */
  function NoteSharePath(category: string, title: string, id: string): string {
    "/share/" + category + "/" + Slugify(title) + "-" + LastSix(id)
  }

  /** The text after the last hyphen of a share path is the id's last six
      characters, whatever the title, as long as the id has no hyphen. */
  lemma ShareSuffixRoundTrip(category: string, title: string, id: string)
    requires '-' !in id
    ensures LastPart(NoteSharePath(category, title, id), '-') == LastSix(id)
    ensures |LastPart(NoteSharePath(category, title, id), '-')| <= 6
  {
    var suffix := LastSix(id);
    assert forall c :: c in suffix ==> c in id;
    LastPartAfter("/share/" + category + "/" + Slugify(title), '-', suffix);
  }
}
