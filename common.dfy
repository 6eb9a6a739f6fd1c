/** Helpers shared by the pages: the outcome of an awaited request, the
    JavaScript whitespace class and `trim`, `split`/`join` on one character,
    `Array.prototype.filter`, `FormData`, and the browser's `localStorage`. */
module Common {

  datatype Option<T> = None | Some(value: T)

  /** What an awaited API call produced: the response body, or a rejection
      carrying the server's `message` ("" when the response had none). */
  datatype Outcome<T> = Ok(value: T) | Failed(serverMessage: string)

  /** The text an error handler shows: `err.response?.data?.message || fallback`. */
  function ErrorText(serverMessage: string, fallback: string): (r: string)
    ensures serverMessage != "" ==> r == serverMessage
    ensures serverMessage == "" ==> r == fallback
    ensures fallback != "" ==> r != ""
  {
    if serverMessage != "" then serverMessage else fallback
  }

  /** JavaScript's `String(b)` for a boolean. */
  function BoolText(b: bool): (r: string)
    ensures r == "true" || r == "false"
    ensures (r == "true") <==> b
  {
    if b then "true" else "false"
  }

  /** A count noun: the singular exactly when the count is one. */
  function Noun(count: int, singular: string): (r: string)
    ensures |r| >= |singular| && r[..|singular|] == singular
    ensures |r| == |singular| <==> count == 1
    ensures r == singular || r == singular + "s"
  {
    if count == 1 then singular else singular + "s"
  }

  // ---------------------------------------------------------------------
  // Whitespace and trim

  /** The characters of JavaScript's `\s` class, which are also the ones
      `String.prototype.trim` removes (WhiteSpace and LineTerminator). */
  predicate IsSpace(c: char) {
    c == '\t' || c == '\n' || c == '\U{000B}' || c == '\U{000C}' || c == '\r' || c == ' '
    || c == '\U{00A0}' || c == '\U{1680}' || ('\U{2000}' <= c <= '\U{200A}')
    || c == '\U{2028}' || c == '\U{2029}' || c == '\U{202F}' || c == '\U{205F}'
    || c == '\U{3000}' || c == '\U{FEFF}'
  }

  function TrimStart(s: string): (r: string)
    ensures |r| <= |s| && r == s[|s| - |r|..]
    ensures r == [] || !IsSpace(r[0])
    ensures forall k :: 0 <= k < |s| - |r| ==> IsSpace(s[k])
  {
    if s != [] && IsSpace(s[0]) then
      var r := TrimStart(s[1..]);
      assert s[1..][|s| - 1 - |r|..] == s[|s| - |r|..];
      assert forall k :: 1 <= k < |s| ==> s[k] == s[1..][k - 1];
      r
    else s
  }

  function TrimEnd(s: string): (r: string)
    ensures |r| <= |s| && r == s[..|r|]
    ensures r == [] || !IsSpace(r[|r| - 1])
    ensures forall k :: |r| <= k < |s| ==> IsSpace(s[k])
  {
    if s != [] && IsSpace(s[|s| - 1]) then TrimEnd(s[..|s| - 1]) else s
  }

  /** Where `Trim(s)` starts in `s`: the length of the leading whitespace. */
  function TrimOffset(s: string): (i: nat)
    ensures i <= |s|
  {
    |s| - |TrimStart(s)|
  }

  /** `String.prototype.trim`: the slice of `s` without whitespace at either end,
      everything cut off being whitespace. */
  function Trim(s: string): (r: string)
    ensures TrimOffset(s) + |r| <= |s| && r == s[TrimOffset(s)..TrimOffset(s) + |r|]
    ensures forall k :: 0 <= k < TrimOffset(s) ==> IsSpace(s[k])
    ensures forall k :: TrimOffset(s) + |r| <= k < |s| ==> IsSpace(s[k])
    ensures r == [] || (!IsSpace(r[0]) && !IsSpace(r[|r| - 1]))
  {
    TrimEnd(TrimStart(s))
  }

  /** `!s.trim()`: the string is empty after trimming. */
  predicate IsBlank(s: string) {
    Trim(s) == ""
  }

  lemma BlankIffAllSpace(s: string)
    ensures IsBlank(s) <==> forall k :: 0 <= k < |s| ==> IsSpace(s[k])
  {
    var r := Trim(s);
    if r != [] {
      assert s[TrimOffset(s)] == r[0];
    }
  }

  // ---------------------------------------------------------------------
  // split / join on one separator character

  /** `s.split(sep)` for a one-character separator: never empty; the parts
      between separators, empty ones included. */
  function Split(s: string, sep: char): (parts: seq<string>)
    ensures |parts| >= 1
    ensures forall k :: 0 <= k < |parts| ==> sep !in parts[k]
  {
    if s == [] then [[]]
    else if s[0] == sep then [[]] + Split(s[1..], sep)
    else
      var rest := Split(s[1..], sep);
      [[s[0]] + rest[0]] + rest[1..]
  }

  /** `parts.join(sep)`. */
  function Join(parts: seq<string>, sep: char): string
    requires |parts| >= 1
  {
    if |parts| == 1 then parts[0] else parts[0] + [sep] + Join(parts[1..], sep)
  }

  lemma {:induction false} JoinSplit(s: string, sep: char)
    ensures Join(Split(s, sep), sep) == s
  {
    if s == [] {
    } else if s[0] == sep {
      JoinSplit(s[1..], sep);
      assert s == [sep] + s[1..];
    } else {
      JoinSplit(s[1..], sep);
      var rest := Split(s[1..], sep);
      if |rest| == 1 {
      } else {
        assert ([[s[0]] + rest[0]] + rest[1..])[1..] == rest[1..];
      }
    }
  }

  lemma {:induction false} SplitWithout(s: string, sep: char)
    requires sep !in s
    ensures Split(s, sep) == [s]
  {
    if s != [] {
      SplitWithout(s[1..], sep);
      assert [s[0]] + s[1..] == s;
    }
  }

  /** Splitting at one separator splits the two sides independently. */
  lemma {:induction false} SplitAt(x: string, sep: char, y: string)
    ensures Split(x + [sep] + y, sep) == Split(x, sep) + Split(y, sep)
  {
    var s := x + [sep] + y;
    if x == [] {
      assert s[1..] == y;
    } else if x[0] == sep {
      assert s[1..] == x[1..] + [sep] + y;
      SplitAt(x[1..], sep, y);
    } else {
      assert s[1..] == x[1..] + [sep] + y;
      SplitAt(x[1..], sep, y);
    }
  }

  /** A string of separators only splits into empty parts, one more than
      the separators. */
  lemma {:induction false} SplitOfSeparators(t: string, sep: char)
    requires forall k :: 0 <= k < |t| ==> t[k] == sep
    ensures |Split(t, sep)| == |t| + 1
    ensures forall k :: 0 <= k < |Split(t, sep)| ==> Split(t, sep)[k] == ""
  {
    if t != [] {
      SplitOfSeparators(t[1..], sep);
    }
  }

  lemma SplitJoin(parts: seq<string>, sep: char)
    requires |parts| >= 1
    requires forall k :: 0 <= k < |parts| ==> sep !in parts[k]
    ensures Split(Join(parts, sep), sep) == parts
    decreases |parts|
  {
    if |parts| == 1 {
      SplitWithout(parts[0], sep);
    } else {
      SplitJoin(parts[1..], sep);
      SplitAt(parts[0], sep, Join(parts[1..], sep));
      SplitWithout(parts[0], sep);
    }
  }

  /** The last part of `s.split(sep)`: the text after the last separator,
      or the whole string when it has none. */
  function LastPart(s: string, sep: char): (r: string)
    ensures sep !in r
    ensures |r| <= |s|
  {
    var parts := Split(s, sep);
    JoinSplit(s, sep);
    LastPartShorter(parts, sep);
    parts[|parts| - 1]
  }

  lemma {:induction false} LastPartShorter(parts: seq<string>, sep: char)
    requires |parts| >= 1
    ensures |parts[|parts| - 1]| <= |Join(parts, sep)|
  {
    if |parts| > 1 {
      LastPartShorter(parts[1..], sep);
    }
  }

  /** What comes before a separator does not matter to the last part. */
  lemma LastPartSuffix(x: string, sep: char, y: string)
    ensures LastPart(x + [sep] + y, sep) == LastPart(y, sep)
  {
    SplitAt(x, sep, y);
  }

  lemma LastPartAfter(x: string, sep: char, y: string)
    requires sep !in y
    ensures LastPart(x + [sep] + y, sep) == y
  {
    LastPartSuffix(x, sep, y);
    SplitWithout(y, sep);
  }

  /** The rest of `s` after `prefix`, when `s` starts with it. */
  function StripPrefix(s: string, prefix: string): (r: Option<string>)
    ensures r.Some? <==> prefix <= s
    ensures r.Some? ==> s == prefix + r.value
  {
    if prefix <= s then
      assert s == prefix + s[|prefix|..];
      Some(s[|prefix|..])
    else None
  }

  lemma StripPrefixAfter(prefix: string, rest: string)
    ensures StripPrefix(prefix + rest, prefix) == Some(rest)
  {
    assert prefix <= prefix + rest;
    assert (prefix + rest)[|prefix|..] == rest;
  }

  // ---------------------------------------------------------------------
  // Array.prototype.filter

  /** `s.filter(keep)`: the elements that pass, in their order, each as often as in `s`. */
  function Filter<T(!new)>(s: seq<T>, keep: T -> bool): (r: seq<T>)
    ensures |r| <= |s|
    ensures forall x :: x in r <==> x in s && keep(x)
  {
    if s == [] then []
    else if keep(s[0]) then
      assert s == [s[0]] + s[1..];
      [s[0]] + Filter(s[1..], keep)
    else
      assert s == [s[0]] + s[1..];
      Filter(s[1..], keep)
  }

  /** Filtering keeps every passing element exactly as often as it occurs,
      and drops every other element entirely. */
  lemma {:induction false} FilterCount<T(!new)>(s: seq<T>, keep: T -> bool, x: T)
    ensures multiset(Filter(s, keep))[x] == if keep(x) then multiset(s)[x] else 0
  {
    if s != [] {
      assert s == [s[0]] + s[1..];
      FilterCount(s[1..], keep, x);
    }
  }

  /** Filtering respects concatenation, so it keeps the relative order of what it keeps. */
  lemma {:induction false} FilterAppend<T(!new)>(a: seq<T>, b: seq<T>, keep: T -> bool)
    ensures Filter(a + b, keep) == Filter(a, keep) + Filter(b, keep)
  {
    if a == [] {
      assert a + b == b;
    } else {
      assert (a + b)[0] == a[0];
      assert (a + b)[1..] == a[1..] + b;
      FilterAppend(a[1..], b, keep);
    }
  }

  lemma {:induction false} FilterKeepsAll<T(!new)>(s: seq<T>, keep: T -> bool)
    requires forall k :: 0 <= k < |s| ==> keep(s[k])
    ensures Filter(s, keep) == s
  {
    if s != [] {
      FilterKeepsAll(s[1..], keep);
    }
  }

  lemma {:induction false} FilterDropsAll<T(!new)>(s: seq<T>, keep: T -> bool)
    requires forall k :: 0 <= k < |s| ==> !keep(s[k])
    ensures Filter(s, keep) == []
  {
    if s != [] {
      FilterDropsAll(s[1..], keep);
    }
  }

  /** Filtering by a weaker test first does not change a filter by a stronger one. */
  lemma {:induction false} FilterNarrow<T(!new)>(s: seq<T>, wide: T -> bool, narrow: T -> bool)
    requires forall x :: narrow(x) ==> wide(x)
    ensures Filter(Filter(s, wide), narrow) == Filter(s, narrow)
  {
    if s != [] {
      FilterNarrow(s[1..], wide, narrow);
    }
  }

  // ---------------------------------------------------------------------
  // Display of a long link

  const LinkShown := 60

  /** `link.length > 60 ? link.slice(0, 60) + '...' : link`. */
  function ShortLink(link: string): (r: string)
    ensures |r| <= LinkShown + 3
    ensures |link| <= LinkShown ==> r == link
    ensures |link| > LinkShown ==> |r| == LinkShown + 3 && r[..LinkShown] == link[..LinkShown] && r[LinkShown..] == "..."
  {
    if |link| > LinkShown then link[..LinkShown] + "..." else link
  }

  /** Shortening an already shown link changes nothing. */
  lemma ShortLinkIdempotent(link: string)
    ensures ShortLink(ShortLink(link)) == ShortLink(link)
  {
    if |link| > LinkShown {
      var r := ShortLink(link);
      assert r[..LinkShown] == link[..LinkShown];
    }
  }

  // ---------------------------------------------------------------------
  // FormData

  datatype FormValue = Text(text: string) | File(fileName: string)
  datatype FormEntry = FormEntry(name: string, value: FormValue)

  /** `fd.get(name)`: the value of the first entry with that name. */
  function FormGet(fd: seq<FormEntry>, name: string): Option<FormValue> {
    if fd == [] then None
    else if fd[0].name == name then Some(fd[0].value)
    else FormGet(fd[1..], name)
  }

  /** `get` finds a value exactly when some entry has the name, and the
      value it finds is one entered under that name. */
  lemma {:induction false} FormGetFinds(fd: seq<FormEntry>, name: string)
    ensures FormGet(fd, name).None? <==> forall k :: 0 <= k < |fd| ==> fd[k].name != name
    ensures FormGet(fd, name).Some? ==> FormEntry(name, FormGet(fd, name).value) in fd
  {
    if fd != [] && fd[0].name != name {
      FormGetFinds(fd[1..], name);
      assert forall k :: 1 <= k < |fd| ==> fd[k] == fd[1..][k - 1];
    }
  }

  /** The first entry with a name is the one found. */
  lemma {:induction false} FormGetAt(fd: seq<FormEntry>, i: nat)
    requires i < |fd| && forall k :: 0 <= k < i ==> fd[k].name != fd[i].name
    ensures FormGet(fd, fd[i].name) == Some(fd[i].value)
  {
    if i > 0 {
      FormGetAt(fd[1..], i - 1);
    }
  }

  /** A name absent from the front of a form is looked up in the rest. */
  lemma {:induction false} FormGetAfter(front: seq<FormEntry>, rest: seq<FormEntry>, name: string)
    requires forall k :: 0 <= k < |front| ==> front[k].name != name
    ensures FormGet(front + rest, name) == FormGet(rest, name)
  {
    if front == [] {
      assert front + rest == rest;
    } else {
      assert (front + rest)[0] == front[0];
      assert (front + rest)[1..] == front[1..] + rest;
      FormGetAfter(front[1..], rest, name);
    }
  }

  // ---------------------------------------------------------------------
  // localStorage

  /** The browser's `localStorage`, shared by reference between the session
      context, which writes it, and the request interceptor, which reads it. */
  class LocalStorage {
    var items: map<string, string>

    constructor (initial: map<string, string>)
      ensures items == initial
    {
      items := initial;
    }

    function GetItem(key: string): (r: Option<string>)
      reads this
      ensures r.Some? <==> key in items
      ensures r.Some? ==> r.value == items[key]
    {
      if key in items then Some(items[key]) else None
    }

    method SetItem(key: string, value: string)
      modifies this
      ensures items == old(items)[key := value]
    {
      items := items[key := value];
    }

    method RemoveItem(key: string)
      modifies this
      ensures items == old(items) - {key}
    {
      items := items - {key};
    }
  }
}
