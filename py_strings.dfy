/**
 * The Python string built-ins the preprocessing code relies on, as functions:
 * `str.split()` with no argument, `str.split(sep)` with a one-character separator,
 * `sep.join(parts)` and `''.join(parts)`. Each comes with the lemmas that relate it
 * to its partner (splitting undoes joining, splitting keeps every non-space character).
 */
module PyStrings {

  /** Python's `str.isspace` on one character: the separators of `str.split()`. */
  predicate IsSpace(c: char) {
    var n := c as int;
    9 <= n <= 13 || 28 <= n <= 32 || n == 0x85 || n == 0xA0 || n == 0x1680
    || 0x2000 <= n <= 0x200A || n == 0x2028 || n == 0x2029 || n == 0x202F
    || n == 0x205F || n == 0x3000
  }

  /** A word as `str.split()` yields it: non-empty and free of whitespace. */
  predicate IsSplitWord(w: string) {
    |w| > 0 && forall i :: 0 <= i < |w| ==> !IsSpace(w[i])
  }

  /** `s` with its leading whitespace removed. */
  function SkipSpaces(s: string): (r: string)
    ensures |r| <= |s|
    ensures r == [] || !IsSpace(r[0])
  {
    if s != [] && IsSpace(s[0]) then SkipSpaces(s[1..]) else s
  }

  /** The longest prefix of `s` that holds no whitespace. */
  function LeadingWord(s: string): (r: string)
    ensures r <= s
    ensures forall i :: 0 <= i < |r| ==> !IsSpace(r[i])
    ensures s != [] && !IsSpace(s[0]) ==> |r| > 0
  {
    if s == [] || IsSpace(s[0]) then [] else [s[0]] + LeadingWord(s[1..])
  }

  /** Python's `s.split()`: the maximal runs of non-whitespace characters, in order. */
  function Split(s: string): (r: seq<string>)
    ensures forall w :: w in r ==> IsSplitWord(w)
    decreases |s|
  {
    var t := SkipSpaces(s);
    if t == [] then []
    else
      var w := LeadingWord(t);
      [w] + Split(t[|w|..])
  }

  /** Python's `sep.join(parts)`. */
  function Join(parts: seq<string>, sep: string): string {
    if |parts| == 0 then ""
    else if |parts| == 1 then parts[0]
    else parts[0] + sep + Join(parts[1..], sep)
  }

  /** Python's `''.join(parts)`: the parts run together with nothing between them. */
  function Concat(parts: seq<string>): string {
    if parts == [] then "" else parts[0] + Concat(parts[1..])
  }

  /** The characters of `s` that are not whitespace, in order. */
  function NonSpace(s: string): string {
    if s == [] then "" else (if IsSpace(s[0]) then "" else [s[0]]) + NonSpace(s[1..])
  }

  /** Number of occurrences of `c` in `s`. */
  function Count(s: string, c: char): nat {
    if s == [] then 0 else (if s[0] == c then 1 else 0) + Count(s[1..], c)
  }

  /** Index of the first occurrence of `c` in `s`. */
  function IndexOf(s: string, c: char): (i: nat)
    requires c in s
    ensures i < |s| && s[i] == c && c !in s[..i]
  {
    if s[0] == c then 0 else 1 + IndexOf(s[1..], c)
  }

  /** Python's `s.split(sep)` for a one-character `sep`: every occurrence cuts, empty fields stay. */
  function SplitOn(s: string, c: char): (r: seq<string>)
    ensures |r| >= 1
    ensures forall f :: f in r ==> c !in f
    decreases |s|
  {
    if c !in s then [s]
    else
      var i := IndexOf(s, c);
      [s[..i]] + SplitOn(s[i + 1..], c)
  }

  // ---------------------------------------------------------------------------
  // str.split() undoes ' '.join on split words, and keeps every non-space character
  // ---------------------------------------------------------------------------

  lemma {:induction false} LeadingWordOf(w: string, tail: string)
    requires forall i :: 0 <= i < |w| ==> !IsSpace(w[i])
    requires tail == [] || IsSpace(tail[0])
    ensures LeadingWord(w + tail) == w
  {
    if w == [] {
      assert w + tail == tail;
    } else {
      assert (w + tail)[1..] == w[1..] + tail;
      LeadingWordOf(w[1..], tail);
    }
  }

  /** A split word followed by whitespace (or nothing) is split off first. */
  lemma {:induction false} SplitWordThen(w: string, tail: string)
    requires IsSplitWord(w)
    requires tail == [] || IsSpace(tail[0])
    ensures Split(w + tail) == [w] + Split(tail)
  {
    var s := w + tail;
    assert SkipSpaces(s) == s;
    LeadingWordOf(w, tail);
    assert s[|w|..] == tail;
  }

  /** Leading whitespace does not change the words of a string. */
  lemma SplitLeadingSpace(c: char, s: string)
    requires IsSpace(c)
    ensures Split([c] + s) == Split(s)
  {
  }

  /** The leading word stops at the end of the string or at a whitespace character. */
  lemma {:induction false} LeadingWordEnds(s: string)
    ensures |LeadingWord(s)| == |s| || IsSpace(s[|LeadingWord(s)|])
  {
    if s != [] && !IsSpace(s[0]) {
      LeadingWordEnds(s[1..]);
    }
  }

  /** A single split word is its own split. */
  lemma SplitWord(w: string)
    requires IsSplitWord(w)
    ensures Split(w) == [w]
  {
    SplitWordThen(w, "");
    assert w + "" == w;
  }

  /** A split word followed by a cut is split off first. */
  lemma SplitWordBeforeCut(w: string, r: string, c: char, b: string)
    requires IsSplitWord(w)
    requires r == [] || IsSpace(r[0])
    requires IsSpace(c)
    ensures Split(w + r + [c] + b) == [w] + Split(r + [c] + b)
  {
    var tail := r + [c] + b;
    assert w + r + [c] + b == w + tail;
    assert tail[0] == if r == [] then c else r[0];
    SplitWordThen(w, tail);
  }

  /**
   * Every whitespace character is a cut: the words on either side of it are split
   * separately, and runs of whitespace produce no empty words.
   */
  lemma {:induction false} SplitCut(a: string, c: char, b: string)
    requires IsSpace(c)
    ensures Split(a + [c] + b) == Split(a) + Split(b)
    decreases |a|
  {
    if a == [] {
      calc {
        Split(a + [c] + b);
        { assert a + [c] + b == [c] + b; }
        Split([c] + b);
        { SplitLeadingSpace(c, b); }
        Split(b);
        { assert Split(a) == []; }
        Split(a) + Split(b);
      }
    } else if IsSpace(a[0]) {
      var a' := a[1..];
      calc {
        Split(a + [c] + b);
        { assert a + [c] + b == [a[0]] + (a' + [c] + b); }
        Split([a[0]] + (a' + [c] + b));
        { SplitLeadingSpace(a[0], a' + [c] + b); }
        Split(a' + [c] + b);
        { SplitCut(a', c, b); }
        Split(a') + Split(b);
        { assert a == [a[0]] + a'; SplitLeadingSpace(a[0], a'); }
        Split(a) + Split(b);
      }
    } else {
      var w := LeadingWord(a);
      var r := a[|w|..];
      assert a == w + r;
      assert IsSplitWord(w);
      assert r == [] || IsSpace(r[0]) by { LeadingWordEnds(a); }
      calc {
        Split(a + [c] + b);
        { assert a + [c] + b == w + r + [c] + b; }
        Split(w + r + [c] + b);
        { SplitWordBeforeCut(w, r, c, b); }
        [w] + Split(r + [c] + b);
        { SplitCut(r, c, b); }
        [w] + (Split(r) + Split(b));
        ([w] + Split(r)) + Split(b);
        { SplitWordThen(w, r); }
        Split(a) + Split(b);
      }
    }
  }

  /** Joining split words with single spaces and splitting again gives the same words back. */
  lemma {:induction false} SplitJoin(words: seq<string>)
    requires forall w :: w in words ==> IsSplitWord(w)
    ensures Split(Join(words, " ")) == words
  {
    if |words| == 0 {
    } else if |words| == 1 {
      SplitWordThen(words[0], "");
      assert words[0] + "" == words[0];
    } else {
      var w := words[0];
      var rest := Join(words[1..], " ");
      assert words[1] in words;
      assert rest[0] == words[1][0] by {
        assert |words[1..]| == 1 ==> rest == words[1];
      }
      assert Join(words, " ") == w + ([' '] + rest);
      SplitWordThen(w, [' '] + rest);
      SplitLeadingSpace(' ', rest);
      SplitJoin(words[1..]);
      assert words == [w] + words[1..];
    }
  }

  lemma {:induction false} NonSpaceAppend(a: string, b: string)
    ensures NonSpace(a + b) == NonSpace(a) + NonSpace(b)
  {
    if a == [] {
      assert a + b == b;
    } else {
      assert (a + b)[1..] == a[1..] + b;
      NonSpaceAppend(a[1..], b);
    }
  }

  lemma {:induction false} NonSpaceOfWord(w: string)
    requires forall i :: 0 <= i < |w| ==> !IsSpace(w[i])
    ensures NonSpace(w) == w
  {
    if w != [] {
      NonSpaceOfWord(w[1..]);
      assert w == [w[0]] + w[1..];
    }
  }

  lemma {:induction false} NonSpaceSkipSpaces(s: string)
    ensures NonSpace(SkipSpaces(s)) == NonSpace(s)
  {
    if s != [] && IsSpace(s[0]) {
      NonSpaceSkipSpaces(s[1..]);
    }
  }

  /** `str.split()` drops exactly the whitespace: its words run together are the non-space characters. */
  lemma {:induction false} SplitKeepsNonSpace(s: string)
    ensures Concat(Split(s)) == NonSpace(s)
    decreases |s|
  {
    var t := SkipSpaces(s);
    NonSpaceSkipSpaces(s);
    if t != [] {
      var w := LeadingWord(t);
      var rest := t[|w|..];
      assert t == w + rest;
      NonSpaceAppend(w, rest);
      NonSpaceOfWord(w);
      SplitKeepsNonSpace(rest);
      var r := Split(s);
      assert r == [w] + Split(rest);
      assert r[1..] == Split(rest);
    }
  }

  // ---------------------------------------------------------------------------
  // sep.join: appending a part, counting separators, splitting on the separator
  // ---------------------------------------------------------------------------

  /** Joining one more part adds one separator and that part at the end. */
  lemma {:induction false} JoinSnoc(parts: seq<string>, x: string, sep: string)
    requires |parts| >= 1
    ensures Join(parts + [x], sep) == Join(parts, sep) + sep + x
  {
    var ps := parts + [x];
    assert ps[0] == parts[0];
    assert ps[1..] == parts[1..] + [x];
    if |parts| > 1 {
      JoinSnoc(parts[1..], x, sep);
    }
  }

  lemma {:induction false} CountAppend(a: string, b: string, c: char)
    ensures Count(a + b, c) == Count(a, c) + Count(b, c)
  {
    if a == [] {
      assert a + b == b;
    } else {
      assert (a + b)[1..] == a[1..] + b;
      CountAppend(a[1..], b, c);
    }
  }

  lemma {:induction false} CountAbsent(s: string, c: char)
    requires c !in s
    ensures Count(s, c) == 0
  {
    if s != [] {
      assert c !in s[1..];
      CountAbsent(s[1..], c);
    }
  }

  /** Joining n parts that do not contain the separator character puts exactly n - 1 of it in the result. */
  lemma {:induction false} JoinSeparatorCount(parts: seq<string>, c: char)
    requires |parts| >= 1
    requires forall p :: p in parts ==> c !in p
    ensures Count(Join(parts, [c]), c) == |parts| - 1
  {
    assert parts[0] in parts;
    CountAbsent(parts[0], c);
    if |parts| > 1 {
      var rest := Join(parts[1..], [c]);
      JoinSeparatorCount(parts[1..], c);
      CountAppend(parts[0], [c], c);
      CountAppend(parts[0] + [c], rest, c);
    }
  }

  lemma {:induction false} IndexOfAfter(w: string, c: char, rest: string)
    requires c !in w
    ensures c in w + [c] + rest && IndexOf(w + [c] + rest, c) == |w|
  {
    var s := w + [c] + rest;
    assert s[|w|] == c;
    if w != [] {
      assert s[1..] == w[1..] + [c] + rest;
      assert c !in w[1..];
      IndexOfAfter(w[1..], c, rest);
    }
  }

  /** A separator right after a part free of it cuts that part off first. */
  lemma SplitOnCut(w: string, c: char, rest: string)
    requires c !in w
    ensures SplitOn(w + [c] + rest, c) == [w] + SplitOn(rest, c)
  {
    var s := w + [c] + rest;
    IndexOfAfter(w, c, rest);
    assert s[..|w|] == w;
    assert s[|w| + 1..] == rest;
  }

  /** Splitting on the separator recovers every part, empty ones included, when no part contains it. */
  lemma {:induction false} SplitOnJoin(parts: seq<string>, c: char)
    requires |parts| >= 1
    requires forall p :: p in parts ==> c !in p
    ensures SplitOn(Join(parts, [c]), c) == parts
  {
    assert parts[0] in parts;
    if |parts| > 1 {
      var rest := Join(parts[1..], [c]);
      assert Join(parts, [c]) == parts[0] + [c] + rest;
      SplitOnCut(parts[0], c, rest);
      SplitOnJoin(parts[1..], c);
      assert parts == [parts[0]] + parts[1..];
    }
  }

  // ---------------------------------------------------------------------------
  // ''.join
  // ---------------------------------------------------------------------------

  /** `''.join` of two lists is the concatenation of their joins. */
  lemma {:induction false} ConcatAppend(a: seq<string>, b: seq<string>)
    ensures Concat(a + b) == Concat(a) + Concat(b)
  {
    if a == [] {
      assert a + b == b;
    } else {
      assert (a + b)[1..] == a[1..] + b;
      ConcatAppend(a[1..], b);
    }
  }
}
