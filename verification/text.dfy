/** The few Python string operations the services rely on: `str.strip()`,
    `str.split()` with no separator, `str.upper()`, `sep.join(parts)` and the
    "body, blank line, fixed notice" decoration used for canned suffixes. */
module Text {
  import opened Common

  /** The code points for which Python's `str.isspace()` holds; `strip()` and
      `split()` without arguments remove exactly these. */
  predicate IsSpace(c: char) {
    || ('\t' <= c <= '\r')
    || ('\U{1C}' <= c <= '\U{1F}')
    || c == ' '
    || c == '\U{85}'
    || c == '\U{A0}'
    || c == '\U{1680}'
    || ('\U{2000}' <= c <= '\U{200A}')
    || c == '\U{2028}'
    || c == '\U{2029}'
    || c == '\U{202F}'
    || c == '\U{205F}'
    || c == '\U{3000}'
  }

  predicate AllSpace(s: string) {
    forall i :: 0 <= i < |s| ==> IsSpace(s[i])
  }

  predicate NoSpace(s: string) {
    forall i :: 0 <= i < |s| ==> !IsSpace(s[i])
  }

  /** True when `s` neither starts nor ends with white space. */
  predicate Trimmed(s: string) {
    s == [] || (!IsSpace(s[0]) && !IsSpace(s[|s| - 1]))
  }

  /** The length of the longest all-white-space prefix of `s`. */
  function LeadingSpace(s: string): (n: nat)
    ensures n <= |s|
    ensures AllSpace(s[..n])
    ensures n < |s| ==> !IsSpace(s[n])
  {
    if s == [] || !IsSpace(s[0]) then 0 else 1 + LeadingSpace(s[1..])
  }

  /** The length of the longest all-white-space suffix of `s`. */
  function TrailingSpace(s: string): (n: nat)
    ensures n <= |s|
    ensures AllSpace(s[|s| - n..])
    ensures n < |s| ==> !IsSpace(s[|s| - 1 - n])
  {
    if s == [] || !IsSpace(s[|s| - 1]) then 0
    else
      var t := s[..|s| - 1];
      var n := TrailingSpace(t);
      assert s[|s| - (n + 1)..] == t[|t| - n..] + [s[|s| - 1]];
      assert n + 1 < |s| ==> s[|s| - 1 - (n + 1)] == t[|t| - 1 - n];
      n + 1
  }

  /** Python's `s.strip()`: `s` without its leading and trailing white space. */
  function Strip(s: string): (r: string)
    ensures |r| <= |s|
    ensures Trimmed(r)
    ensures r == [] <==> AllSpace(s)
    ensures StripsTo(s, r)
  {
    var lo := LeadingSpace(s);
    if lo == |s| then
      assert s[..lo] == s && s[lo..lo] == [];
      assert StripsAt(s, [], lo);
      []
    else
      var hi := |s| - TrailingSpace(s);
      assert lo < hi;
      assert !AllSpace(s);
      assert StripsAt(s, s[lo..hi], lo);
      s[lo..hi]
  }

  /** `r` is what remains of `s` once the white space at index `i` and before,
      and after `r`, is cut off. */
  predicate StripsAt(s: string, r: string, i: nat) {
    i + |r| <= |s| && s[i..i + |r|] == r && AllSpace(s[..i]) && AllSpace(s[i + |r|..])
  }

  /** `s` splits into white space, a trimmed middle and white space. This
      characterises `strip()` independently of how it scans. */
  ghost predicate StripsTo(s: string, r: string) {
    Trimmed(r) && exists i: nat :: StripsAt(s, r, i)
  }

  lemma FirstNonSpace(s: string, i: nat)
    requires i < |s| && AllSpace(s[..i]) && !IsSpace(s[i])
    ensures i == LeadingSpace(s)
  {
  }

  lemma LastNonSpace(s: string, e: nat)
    requires 0 < e <= |s| && AllSpace(s[e..]) && !IsSpace(s[e - 1])
    ensures e == |s| - TrailingSpace(s)
  {
  }

  /** Any decomposition of `s` into white space, a trimmed middle and white
      space has the same middle: the one `Strip` returns. */
  lemma StripUnique(s: string, r: string)
    requires StripsTo(s, r)
    ensures r == Strip(s)
  {
    var i: nat :| StripsAt(s, r, i);
    if r == [] {
      forall k | 0 <= k < |s| ensures IsSpace(s[k]) {
        if k < i { assert s[..i][k] == s[k]; } else { assert s[i..][k - i] == s[k]; }
      }
    } else {
      var e := i + |r|;
      assert s[i] == r[0];
      FirstNonSpace(s, i);
      assert s[e - 1] == r[|r| - 1];
      LastNonSpace(s, e);
      assert Strip(s) == s[i..e];
    }
  }

  /** Stripping is idempotent. */
  lemma StripIdempotent(s: string)
    ensures Strip(Strip(s)) == Strip(s)
  {
    var r := Strip(s);
    assert r[0..0 + |r|] == r;
    assert StripsAt(r, r, 0);
    StripUnique(r, r);
  }

  /** The length of the maximal white-space-free prefix of `s`. */
  function WordLength(s: string): (n: nat)
    ensures n <= |s|
    ensures NoSpace(s[..n])
    ensures n < |s| ==> IsSpace(s[n])
  {
    if s == [] || IsSpace(s[0]) then 0 else 1 + WordLength(s[1..])
  }

  /** Python's `s.split()`: the maximal runs of non-white-space characters,
      in order. */
  function Words(s: string): (ws: seq<string>)
    ensures forall k :: 0 <= k < |ws| ==> ws[k] != [] && NoSpace(ws[k])
    ensures ws == [] <==> AllSpace(s)
    decreases |s|
  {
    var lo := LeadingSpace(s);
    if lo == |s| then []
    else
      var t := s[lo..];
      var n := WordLength(t);
      assert n > 0;
      [t[..n]] + Words(t[n..])
  }

  /** `len(s.split())`. */
  function WordCount(s: string): nat {
    |Words(s)|
  }

  /** Python's `sep.join(parts)`. */
  function Join(sep: string, parts: seq<string>): (r: string)
    ensures parts == [] ==> r == ""
    ensures |parts| == 1 ==> r == parts[0]
    ensures parts != [] ==> |parts[0]| <= |r| && r[..|parts[0]|] == parts[0]
  {
    if parts == [] then ""
    else if |parts| == 1 then parts[0]
    else parts[0] + sep + Join(sep, parts[1..])
  }

  /** Joining two non-empty lists puts one separator between their joins.
      With the empty and the one-element case this characterises `join`
      independently of the order in which it is computed. */
  lemma {:induction false} JoinAppend(sep: string, a: seq<string>, b: seq<string>)
    requires a != [] && b != []
    ensures Join(sep, a + b) == Join(sep, a) + sep + Join(sep, b)
  {
    if |a| == 1 {
      assert (a + b)[0] == a[0] && (a + b)[1..] == b;
    } else {
      assert (a + b)[0] == a[0] && (a + b)[1..] == a[1..] + b;
      JoinAppend(sep, a[1..], b);
    }
  }

  /** Words separated by single blanks split back into the same words: `split()`
      inverts `" ".join` on words without white space. */
  lemma {:induction false} WordsOfJoin(ws: seq<string>)
    requires forall k :: 0 <= k < |ws| ==> ws[k] != [] && NoSpace(ws[k])
    ensures Words(Join(" ", ws)) == ws
  {
    if ws == [] {
    } else if |ws| == 1 {
      WordThen(ws[0], "");
      assert ws[0] + "" == ws[0];
    } else {
      var rest := " " + Join(" ", ws[1..]);
      assert Join(" ", ws) == ws[0] + rest;
      WordThen(ws[0], rest);
      WordsOfJoin(ws[1..]);
      assert rest == [' '] + Join(" ", ws[1..]);
      SpaceThenWords(' ', Join(" ", ws[1..]));
    }
  }

  /** A maximal run of non-white-space characters, followed by nothing or by
      white space, is the first word. */
  lemma WordThen(w: string, rest: string)
    requires w != [] && NoSpace(w)
    requires rest == [] || IsSpace(rest[0])
    ensures Words(w + rest) == [w] + Words(rest)
  {
    var s := w + rest;
    LeadingNonSpace(w, rest);
    assert s[0..] == s;
    WordOfPrefix(w, rest);
    assert s[..|w|] == w && s[|w|..] == rest;
  }

  lemma LeadingNonSpace(w: string, rest: string)
    requires w != [] && !IsSpace(w[0])
    ensures LeadingSpace(w + rest) == 0
  {
    assert (w + rest)[0] == w[0];
  }

  lemma {:induction false} WordOfPrefix(w: string, rest: string)
    requires NoSpace(w)
    requires rest == [] || IsSpace(rest[0])
    ensures WordLength(w + rest) == |w|
  {
    if w == [] {
    } else {
      assert (w + rest)[0] == w[0];
      assert (w + rest)[1..] == w[1..] + rest;
      WordOfPrefix(w[1..], rest);
    }
  }

  /** White space in front of a string adds no word. */
  lemma SpaceThenWords(c: char, t: string)
    requires IsSpace(c)
    ensures Words([c] + t) == Words(t)
  {
    var s := [c] + t;
    assert s[1..] == t;
    assert LeadingSpace(s) == 1 + LeadingSpace(t);
    assert s[1 + LeadingSpace(t)..] == t[LeadingSpace(t)..];
  }

  /** The empty string has no words. Together with `SpaceThenWords` and
      `WordThen`, which cover every non-empty string, this determines
      `Words` on every input. */
  lemma NoWordsInEmpty()
    ensures Words("") == []
  {
  }

  /** Python's `c.upper()` on the ASCII range. */
  function UpperChar(c: char): char {
    if 'a' <= c <= 'z' then (c as int - 'a' as int + 'A' as int) as char else c
  }

  /** Python's `s.upper()`, with case mapping restricted to ASCII letters. */
  function Upper(s: string): (r: string)
    ensures |r| == |s|
    ensures forall i :: 0 <= i < |s| ==> r[i] == UpperChar(s[i])
  {
    seq(|s|, i requires 0 <= i < |s| => UpperChar(s[i]))
  }

  /** Upper-casing is idempotent. */
  lemma UpperIdempotent(s: string)
    ensures Upper(Upper(s)) == Upper(s)
  {
  }

  /** Upper-casing commutes with concatenation. */
  lemma UpperAppend(a: string, b: string)
    ensures Upper(a + b) == Upper(a) + Upper(b)
  {
  }

  /** The blank line placed between an answer and a fixed notice. */
  const BlankLine: string := "\n\n"

  /** `f"{body}\n\n{notice}"`. */
  function AppendNotice(body: string, notice: string): (r: string)
    ensures |r| == |body| + |BlankLine| + |notice|
    ensures r[..|body|] == body
    ensures r[|body|..|body| + |BlankLine|] == BlankLine
    ensures r[|body| + |BlankLine|..] == notice
  {
    body + BlankLine + notice
  }

  /** The inverse of `AppendNotice`: the body, when `s` ends with the blank
      line and the notice. */
  function RemoveNotice(s: string, notice: string): (r: Option<string>)
    ensures r.Some? ==> |r.value| == |s| - |BlankLine| - |notice|
  {
    var n := |BlankLine| + |notice|;
    if n <= |s| && s[|s| - n..] == BlankLine + notice then Some(s[..|s| - n]) else None
  }

  /** Removing the notice recovers the body exactly, and the decoration is the
      only way to produce a string the notice can be removed from. */
  lemma NoticeRoundTrip(body: string, notice: string, s: string)
    ensures RemoveNotice(AppendNotice(body, notice), notice) == Some(body)
    ensures RemoveNotice(s, notice) == Some(body) <==> s == AppendNotice(body, notice)
  {
    var d := AppendNotice(body, notice);
    assert d[|d| - (|BlankLine| + |notice|)..] == BlankLine + notice;
    assert d[..|d| - (|BlankLine| + |notice|)] == body;
    if RemoveNotice(s, notice) == Some(body) {
      var n := |BlankLine| + |notice|;
      assert s == s[..|s| - n] + s[|s| - n..];
    }
  }
}
