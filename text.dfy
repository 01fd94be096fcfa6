/**
 * The string operations of Python that the pipeline relies on:
 * `str.isspace`, `str.split()` with no argument, `sep.join(parts)`,
 * `str(n)` for a non-negative integer, and `str.lower()` on ASCII letters.
 */
module Text {
  import opened Basics

  /** Python's `str.isspace` on one character: the characters `str.split()` cuts at. */
  predicate IsSpace(c: char) {
    || ('\t' <= c <= '\r')
    || ('\U{1C}' <= c <= '\U{1F}')
    || c == ' '
    || c == '\U{85}'
    || c == '\U{A0}'
    || c == '\U{1680}'
    || ('\U{2000}' <= c <= '\U{200A}')
    || c == '\U{2028}'
    || c == '\U{2029}'
    || c == '\U{202F}'
    || c == '\U{205F}'
    || c == '\U{3000}'
  }

  /** A word as `str.split()` produces it: non-empty and free of whitespace. */
  predicate IsWord(w: string) {
    w != [] && forall i :: 0 <= i < |w| ==> !IsSpace(w[i])
  }

  /** Length of the leading run of whitespace characters. */
  function SpaceLength(s: string): (n: nat)
    ensures n <= |s|
    ensures forall i :: 0 <= i < n ==> IsSpace(s[i])
    ensures n < |s| ==> !IsSpace(s[n])
  {
    if s != [] && IsSpace(s[0]) then 1 + SpaceLength(s[1..]) else 0
  }

  /** Length of the leading run of non-whitespace characters. */
  function WordLength(s: string): (n: nat)
    ensures n <= |s|
    ensures forall i :: 0 <= i < n ==> !IsSpace(s[i])
    ensures n < |s| ==> IsSpace(s[n])
  {
    if s != [] && !IsSpace(s[0]) then 1 + WordLength(s[1..]) else 0
  }

  /** Python's `s.split()`: the maximal whitespace-free runs of `s`, in order. */
  function Split(s: string): (words: seq<string>)
    ensures forall i :: 0 <= i < |words| ==> IsWord(words[i])
    decreases |s|
  {
    var t := s[SpaceLength(s)..];
    if t == [] then []
    else
      var n := WordLength(t);
      assert n > 0;
      var w := t[..n];
      assert IsWord(w);
      var rest := Split(t[n..]);
      [w] + rest
  }

  /** The characters of `s` that are not whitespace, in order. */
  function NonSpace(s: string): string {
    if s == [] then []
    else if IsSpace(s[0]) then NonSpace(s[1..])
    else [s[0]] + NonSpace(s[1..])
  }

  /** The words of a list, concatenated with nothing between them. */
  function Concat(words: seq<string>): string {
    if words == [] then [] else words[0] + Concat(words[1..])
  }

  lemma {:induction false} NonSpaceAppend(a: string, b: string)
    ensures NonSpace(a + b) == NonSpace(a) + NonSpace(b)
  {
    if a != [] {
      assert (a + b)[0] == a[0];
      assert (a + b)[1..] == a[1..] + b;
      NonSpaceAppend(a[1..], b);
    } else {
      assert a + b == b;
    }
  }

  lemma {:induction false} NonSpaceOfSpaces(s: string)
    requires forall i :: 0 <= i < |s| ==> IsSpace(s[i])
    ensures NonSpace(s) == []
  {
    if s != [] {
      NonSpaceOfSpaces(s[1..]);
    }
  }

  lemma {:induction false} NonSpaceOfWord(w: string)
    requires forall i :: 0 <= i < |w| ==> !IsSpace(w[i])
    ensures NonSpace(w) == w
  {
    if w != [] {
      NonSpaceOfWord(w[1..]);
      assert w == [w[0]] + w[1..];
    }
  }

  /** Leading whitespace contributes nothing to `NonSpace`. */
  lemma NonSpaceSkipsSpace(s: string)
    ensures NonSpace(s) == NonSpace(s[SpaceLength(s)..])
  {
    var k := SpaceLength(s);
    assert s == s[..k] + s[k..];
    NonSpaceAppend(s[..k], s[k..]);
    NonSpaceOfSpaces(s[..k]);
  }

  /** A leading word is kept whole by `NonSpace`. */
  lemma NonSpaceKeepsWord(t: string)
    ensures NonSpace(t) == t[..WordLength(t)] + NonSpace(t[WordLength(t)..])
  {
    var n := WordLength(t);
    assert t == t[..n] + t[n..];
    NonSpaceAppend(t[..n], t[n..]);
    NonSpaceOfWord(t[..n]);
  }

  /**
   * `s.split()` loses nothing but whitespace: its words, put back together
   * in order, are exactly the non-whitespace characters of `s`.
   */
  lemma {:induction false} SplitKeepsNonSpace(s: string)
    ensures Concat(Split(s)) == NonSpace(s)
    decreases |s|
  {
    NonSpaceSkipsSpace(s);
    var t := s[SpaceLength(s)..];
    if t != [] {
      var n := WordLength(t);
      NonSpaceKeepsWord(t);
      SplitKeepsNonSpace(t[n..]);
      var words := Split(s);
      assert words == [t[..n]] + Split(t[n..]);
      assert words[1..] == Split(t[n..]);
    }
  }

  /** A word followed by whitespace, or by nothing, is split off whole. */
  lemma SplitCons(w: string, r: string)
    requires IsWord(w)
    requires r == [] || IsSpace(r[0])
    ensures Split(w + r) == [w] + Split(r)
  {
    var s := w + r;
    WordLengthOfWord(w, r);
    assert s[0] == w[0];
    assert SpaceLength(s) == 0;
    assert s[0..] == s;
    assert s[..|w|] == w;
    assert s[|w|..] == r;
  }

  /**
   * Every whitespace character separates words: splitting around it gives
   * the split of the text before it followed by the split of the text after.
   */
  lemma {:induction false} SplitAtSpace(a: string, c: char, b: string)
    requires IsSpace(c)
    ensures Split(a + [c] + b) == Split(a) + Split(b)
    decreases |a|, 1
  {
    var s := a + [c] + b;
    if a == [] {
      assert s == [c] + b;
      SplitSkipsLeadingSpace(s);
      assert s[1..] == b;
    } else if IsSpace(a[0]) {
      SplitSkipsLeadingSpace(s);
      SplitSkipsLeadingSpace(a);
      assert s[1..] == a[1..] + [c] + b;
      SplitAtSpace(a[1..], c, b);
    } else {
      SplitAtSpaceAfterWord(a, c, b);
    }
  }

  /** `SplitAtSpace` when `a` starts with a word. */
  lemma {:induction false} SplitAtSpaceAfterWord(a: string, c: char, b: string)
    requires IsSpace(c)
    requires a != [] && !IsSpace(a[0])
    ensures Split(a + [c] + b) == Split(a) + Split(b)
    decreases |a|, 0
  {
    var m := WordLength(a);
    var w, rest := a[..m], a[m..];
    assert IsWord(w);
    var tail := rest + [c] + b;
    Regroup(a, m, c, b);
    assert tail[0] == if rest == [] then c else rest[0];
    calc {
      Split(a + [c] + b);
      Split(w + tail);
      { SplitCons(w, tail); }
      [w] + Split(tail);
      { SplitAtSpace(rest, c, b); }
      [w] + (Split(rest) + Split(b));
      ([w] + Split(rest)) + Split(b);
      { SplitCons(w, rest); }
      Split(w + rest) + Split(b);
    }
  }

  /** Cutting `a` at `m` and putting `[c] + b` after it. */
  lemma Regroup<T>(a: seq<T>, m: nat, c: T, b: seq<T>)
    requires m <= |a|
    ensures a == a[..m] + a[m..]
    ensures a + [c] + b == a[..m] + (a[m..] + [c] + b)
  {
  }

  /** Python's `sep.join(parts)`. */
  function Join(parts: seq<string>, sep: string): string {
    if |parts| == 0 then ""
    else if |parts| == 1 then parts[0]
    else parts[0] + sep + Join(parts[1..], sep)
  }

  /** Sum of the lengths of the parts. */
  function TotalLength(parts: seq<string>): nat {
    if parts == [] then 0 else |parts[0]| + TotalLength(parts[1..])
  }

  /** Concatenation of a sequence of word lists. */
  function Flatten(groups: seq<seq<string>>): seq<string> {
    if groups == [] then [] else groups[0] + Flatten(groups[1..])
  }

  /** `s.split()` is empty exactly when `s` is empty or whitespace only. */
  lemma SplitEmptyIff(s: string)
    ensures Split(s) == [] <==> forall i :: 0 <= i < |s| ==> IsSpace(s[i])
  {
    var t := s[SpaceLength(s)..];
    if t != [] {
      assert t[0] == s[|s| - |t|];
    }
  }

  lemma {:induction false} WordLengthOfWord(w: string, rest: string)
    requires IsWord(w)
    requires rest == [] || IsSpace(rest[0])
    ensures WordLength(w + rest) == |w|
    decreases |w|
  {
    var s := w + rest;
    assert s[0] == w[0];
    if |w| > 1 {
      assert s[1..] == w[1..] + rest;
      WordLengthOfWord(w[1..], rest);
    } else {
      assert s[1..] == rest;
    }
  }

  /** Leading whitespace does not change the split. */
  lemma SplitSkipsLeadingSpace(s: string)
    requires s != [] && IsSpace(s[0])
    ensures Split(s) == Split(s[1..])
  {
  }

  /**
   * Round trip: joining words with single spaces and splitting again
   * returns the same words.
   */
  lemma {:induction false} SplitJoin(words: seq<string>)
    requires forall i :: 0 <= i < |words| ==> IsWord(words[i])
    ensures Split(Join(words, " ")) == words
  {
    if |words| == 0 {
    } else if |words| == 1 {
      var w := words[0];
      WordLengthOfWord(w, "");
      assert w + "" == w;
      assert w[|w|..] == [];
    } else {
      var w := words[0];
      var rest := Join(words[1..], " ");
      var s := Join(words, " ");
      assert s == w + (" " + rest);
      WordLengthOfWord(w, " " + rest);
      assert SpaceLength(s) == 0;
      assert s[..|w|] == w;
      assert s[|w|..] == " " + rest;
      SplitSkipsLeadingSpace(" " + rest);
      assert (" " + rest)[1..] == rest;
      SplitJoin(words[1..]);
    }
  }

  /**
   * A string made of words separated by single spaces: it is non-empty,
   * neither starts nor ends with whitespace, and every whitespace character
   * in it is a space followed by a non-whitespace character.
   */
  predicate SingleSpaced(t: string) {
    && t != []
    && !IsSpace(t[0])
    && !IsSpace(t[|t| - 1])
    && forall i :: 0 <= i < |t| - 1 && IsSpace(t[i]) ==> t[i] == ' ' && !IsSpace(t[i + 1])
  }

  lemma {:induction false} JoinSingleSpaced(words: seq<string>)
    requires |words| > 0
    requires forall i :: 0 <= i < |words| ==> IsWord(words[i])
    ensures SingleSpaced(Join(words, " "))
  {
    if |words| > 1 {
      var w := words[0];
      var rest := Join(words[1..], " ");
      JoinSingleSpaced(words[1..]);
      var t := Join(words, " ");
      assert t == w + " " + rest;
      forall i | 0 <= i < |t| - 1 && IsSpace(t[i])
        ensures t[i] == ' ' && !IsSpace(t[i + 1])
      {
        if i == |w| {
          assert t[i + 1] == rest[0];
        } else if i > |w| {
          assert t[i] == rest[i - |w| - 1];
          assert t[i + 1] == rest[i - |w|];
        }
      }
      assert t[0] == w[0];
      assert t[|t| - 1] == rest[|rest| - 1];
    }
  }

  /** `len(sep.join(parts))` is the total length of the parts plus one separator between each pair. */
  lemma {:induction false} JoinLength(parts: seq<string>, sep: string)
    requires |parts| > 0
    ensures |Join(parts, sep)| == TotalLength(parts) + |sep| * (|parts| - 1)
  {
    if |parts| > 1 {
      JoinLength(parts[1..], sep);
    } else {
      assert parts[1..] == [];
    }
  }

  lemma {:induction false} TotalLengthSnoc(parts: seq<string>, last: string)
    ensures TotalLength(parts + [last]) == TotalLength(parts) + |last|
  {
    if parts == [] {
      assert [last][1..] == [];
    } else {
      assert (parts + [last])[1..] == parts[1..] + [last];
      TotalLengthSnoc(parts[1..], last);
    }
  }

  /** `TotalLength` of a prefix, peeling off the first part. */
  lemma PrefixTotal(parts: seq<string>, i: nat)
    requires 0 < i <= |parts|
    ensures TotalLength(parts[..i]) == |parts[0]| + TotalLength(parts[1..i])
  {
    assert parts[..i][1..] == parts[1..i];
  }

  /** Where part `i` starts in `sep.join(parts)`: the parts before it and one separator after each. */
  function PartStart(parts: seq<string>, sep: string, i: nat): nat
    requires i <= |parts|
  {
    TotalLength(parts[..i]) + |sep| * i
  }

  /** The next part starts one separator after the end of this one. */
  lemma PartStartNext(parts: seq<string>, sep: string, i: nat)
    requires i < |parts|
    ensures PartStart(parts, sep, i + 1) == PartStart(parts, sep, i) + |parts[i]| + |sep|
  {
    assert parts[..i + 1] == parts[..i] + [parts[i]];
    TotalLengthSnoc(parts[..i], parts[i]);
  }

  /** Past the first part and its separator, positions are those in the remaining parts. */
  lemma PartStartShift(parts: seq<string>, sep: string, i: nat)
    requires 0 < i <= |parts|
    ensures PartStart(parts, sep, i) == |parts[0]| + |sep| + PartStart(parts[1..], sep, i - 1)
  {
    PrefixTotal(parts, i);
    assert parts[1..][..i - 1] == parts[1..i];
  }

  /**
   * `sep.join(parts)` keeps the parts in order: part `i` is the slice
   * starting at `PartStart`, and the separator follows every part but the
   * last.
   */
  lemma {:induction false} JoinOrder(parts: seq<string>, sep: string, i: nat)
    requires i < |parts|
    ensures PartStart(parts, sep, i) + |parts[i]| <= |Join(parts, sep)|
    ensures Join(parts, sep)[PartStart(parts, sep, i)..PartStart(parts, sep, i) + |parts[i]|] == parts[i]
    ensures i + 1 < |parts| ==> PartStart(parts, sep, i) + |parts[i]| + |sep| <= |Join(parts, sep)|
    ensures i + 1 < |parts| ==>
      Join(parts, sep)[PartStart(parts, sep, i) + |parts[i]|..PartStart(parts, sep, i) + |parts[i]| + |sep|] == sep
  {
    var c := Join(parts, sep);
    if |parts| == 1 {
      assert parts[..0] == [];
    } else {
      var rest := parts[1..];
      assert c == parts[0] + sep + Join(rest, sep);
      if i == 0 {
        assert parts[..0] == [];
      } else {
        JoinOrder(rest, sep, i - 1);
        PartStartShift(parts, sep, i);
        assert rest[i - 1] == parts[i];
        var off := |parts[0]| + |sep|;
        var s := PartStart(parts, sep, i);
        assert c[off..] == Join(rest, sep);
        SliceOfSuffix(c, off, s - off, s - off + |parts[i]|);
        if i + 1 < |parts| {
          var e := s + |parts[i]|;
          SliceOfSuffix(c, off, e - off, e - off + |sep|);
        }
      }
    }
  }

  /** The decimal digit for `d`. */
  function DigitChar(d: nat): (c: char)
    requires d < 10
    ensures '0' <= c <= '9'
  {
    ('0' as int + d) as char
  }

  /** Python's `str(n)` for `n >= 0`: decimal digits, with a leading zero only for 0 itself. */
  function NatToString(n: nat): (s: string)
    ensures |s| > 0
    ensures forall i :: 0 <= i < |s| ==> '0' <= s[i] <= '9'
    ensures s[0] == '0' ==> n == 0
  {
    if n < 10 then [DigitChar(n)] else NatToString(n / 10) + [DigitChar(n % 10)]
  }

  /** Reading a string of decimal digits back as a number (Python's `int(s)`). */
  function ParseNat(s: string): nat
    requires forall i :: 0 <= i < |s| ==> '0' <= s[i] <= '9'
  {
    if s == [] then 0 else ParseNat(s[..|s| - 1]) * 10 + (s[|s| - 1] as int - '0' as int)
  }

  /** Round trip: `int(str(n)) == n`. */
  lemma {:induction false} ParseNatToString(n: nat)
    ensures ParseNat(NatToString(n)) == n
  {
    var s := NatToString(n);
    if n >= 10 {
      assert s[..|s| - 1] == NatToString(n / 10);
      ParseNatToString(n / 10);
    }
  }

  /** Distinct numbers have distinct decimal strings. */
  lemma NatToStringInjective(m: nat, n: nat)
    requires NatToString(m) == NatToString(n)
    ensures m == n
  {
    ParseNatToString(m);
    ParseNatToString(n);
  }

  /** Python's `str.lower()` on one character, modelled for ASCII letters. */
  function LowerChar(c: char): char {
    if 'A' <= c <= 'Z' then (c as int + 32) as char else c
  }

  /** Python's `s.lower()` with the ASCII model of `LowerChar`. */
  function Lower(s: string): (r: string)
    ensures |r| == |s|
    ensures forall i :: 0 <= i < |s| ==> r[i] == LowerChar(s[i])
  {
    if s == [] then [] else [LowerChar(s[0])] + Lower(s[1..])
  }
}
