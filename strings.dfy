/**
 * The text primitives the generator uses, as PHP 8.2 and later and Laravel
 * define them on ASCII text: `strtolower`, `ucfirst`, `trim` with a quote character list,
 * `explode`, `str_replace`, `strpos`, `str_starts_with` and `Str::contains`.
 */
module Strings {
  import opened Wrappers

  /**
   * Laravel's inflector (`Str::plural`, `Str::camel`) is a foreign library:
   * it is a parameter here, so every property below holds for any inflector.
   */
  datatype Inflector = Inflector(plural: string -> string, camel: string -> string)

  predicate IsUpper(c: char) { 'A' <= c <= 'Z' }

  predicate IsLower(c: char) { 'a' <= c <= 'z' }

  /** The ASCII lower-case letter of a capital; every other character is kept. */
  function LowerChar(c: char): (r: char)
    ensures IsUpper(c) ==> IsLower(r) && r as int == c as int + 32
    ensures !IsUpper(c) ==> r == c
  {
    if IsUpper(c) then (c as int + 32) as char else c
  }

  /** The ASCII capital of a lower-case letter; every other character is kept. */
  function UpperChar(c: char): (r: char)
    ensures IsLower(c) ==> IsUpper(r) && r as int == c as int - 32
    ensures !IsLower(c) ==> r == c
  {
    if IsLower(c) then (c as int - 32) as char else c
  }

  /** `strtolower` as of PHP 8.2 (locale-independent): only ASCII capitals change, and none is left. */
  function ToLower(s: string): (r: string)
    ensures |r| == |s|
    ensures forall i :: 0 <= i < |r| ==> !IsUpper(r[i])
    ensures forall i :: 0 <= i < |s| && !IsUpper(s[i]) ==> r[i] == s[i]
    ensures forall i :: 0 <= i < |s| && IsUpper(s[i]) ==> r[i] as int == s[i] as int + 32
  {
    if s == [] then [] else [LowerChar(s[0])] + ToLower(s[1..])
  }

  /** Lower-casing twice is lower-casing once. */
  lemma ToLowerIdempotent(s: string)
    ensures ToLower(ToLower(s)) == ToLower(s)
  {
  }

  /** `ucfirst` as of PHP 8.2 (locale-independent): the first character is capitalised, the rest is kept. */
  function UcFirst(s: string): (r: string)
    ensures |r| == |s|
    ensures s != [] ==> !IsLower(r[0]) && r[1..] == s[1..]
    ensures s != [] && IsLower(s[0]) ==> IsUpper(r[0]) && r[0] as int == s[0] as int - 32
    ensures s != [] && !IsLower(s[0]) ==> r == s
  {
    if s == [] then [] else [UpperChar(s[0])] + s[1..]
  }

  predicate IsQuote(c: char) { c == '\'' || c == '"' }

  /** How many quote characters `trim($s, "'\"")` removes from the front of `s`. */
  function LeadingQuotes(s: string): (n: nat)
    ensures n <= |s|
    ensures forall i :: 0 <= i < n ==> IsQuote(s[i])
    ensures n == |s| || !IsQuote(s[n])
  {
    if s != [] && IsQuote(s[0]) then 1 + LeadingQuotes(s[1..]) else 0
  }

  /** How many quote characters `trim($s, "'\"")` removes from the back of `s`. */
  function TrailingQuotes(s: string): (n: nat)
    ensures n <= |s|
    ensures forall i :: |s| - n <= i < |s| ==> IsQuote(s[i])
    ensures n == |s| || !IsQuote(s[|s| - 1 - n])
  {
    if s != [] && IsQuote(s[|s| - 1]) then 1 + TrailingQuotes(s[..|s| - 1]) else 0
  }

  /**
   * PHP `trim($s, "'\"")`: the result is the slice of `s` that starts at its
   * first non-quote character; everything outside it is a quote, and the
   * result neither starts nor ends with one.
   */
  function TrimQuotes(s: string): (r: string)
    ensures LeadingQuotes(s) + |r| <= |s|
    ensures r == s[LeadingQuotes(s)..LeadingQuotes(s) + |r|]
    ensures forall i :: 0 <= i < |s| && !(LeadingQuotes(s) <= i < LeadingQuotes(s) + |r|) ==> IsQuote(s[i])
    ensures r == [] || (!IsQuote(r[0]) && !IsQuote(r[|r| - 1]))
  {
    var a := LeadingQuotes(s);
    var b := |s| - TrailingQuotes(s);
    if a >= b then [] else s[a..b]
  }

  /** Trimming quotes a second time changes nothing. */
  lemma TrimQuotesIdempotent(s: string)
    ensures TrimQuotes(TrimQuotes(s)) == TrimQuotes(s)
  {
    var r := TrimQuotes(s);
    assert LeadingQuotes(r) == 0;
    assert TrailingQuotes(r) == 0;
  }

  /** PHP `implode` with a one-character glue. */
  function Join(parts: seq<string>, sep: char): string
  {
    if |parts| == 0 then []
    else if |parts| == 1 then parts[0]
    else Join(parts[..|parts| - 1], sep) + [sep] + parts[|parts| - 1]
  }

  /** PHP `explode($sep, $s)`, splitting at every separator. */
  function Split(s: string, sep: char): (parts: seq<string>)
    ensures |parts| >= 1
  {
    if s == [] then [[]]
    else
      var init := Split(s[..|s| - 1], sep);
      var c := s[|s| - 1];
      if c == sep then init + [[]]
      else init[..|init| - 1] + [init[|init| - 1] + [c]]
  }

  /** `explode` gives one more part than there are separators, and no part holds a separator. */
  lemma {:induction false} SplitParts(s: string, sep: char)
    ensures |Split(s, sep)| == multiset(s)[sep] + 1
    ensures forall i :: 0 <= i < |Split(s, sep)| ==> sep !in Split(s, sep)[i]
  {
    if s != [] {
      var t := s[..|s| - 1];
      var c := s[|s| - 1];
      SplitParts(t, sep);
      assert s == t + [c];
      assert multiset(s) == multiset(t) + multiset{c};
      var init := Split(t, sep);
      var parts := Split(s, sep);
      if c != sep {
        assert forall i :: 0 <= i < |parts| - 1 ==> parts[i] == init[i];
      } else {
        assert forall i :: 0 <= i < |parts| - 1 ==> parts[i] == init[i];
      }
    }
  }

  /** Gluing the parts of `explode` back together gives the original text. */
  lemma {:induction false} SplitJoin(s: string, sep: char)
    ensures Join(Split(s, sep), sep) == s
  {
    if s != [] {
      var t := s[..|s| - 1];
      var c := s[|s| - 1];
      SplitJoin(t, sep);
      var init := Split(t, sep);
      assert s == t + [c];
      if c != sep {
        JoinExtendLast(init, c, sep);
      } else {
        JoinAppendEmpty(init, sep);
      }
    }
  }

  /** A text without separators is one part. */
  lemma SplitNoSeparator(s: string, sep: char)
    requires sep !in s
    ensures Split(s, sep) == [s]
  {
    assert multiset(s)[sep] == 0;
    SplitParts(s, sep);
    SplitJoin(s, sep);
  }

  /** Appending a separator and a separator-free part appends that part. */
  lemma {:induction false} SplitAppendPart(x: string, part: string, sep: char)
    requires sep !in part
    ensures Split(x + [sep] + part, sep) == Split(x, sep) + [part]
    decreases |part|
  {
    var s := x + [sep] + part;
    if part == [] {
      assert s[..|s| - 1] == x;
    } else {
      var p' := part[..|part| - 1];
      assert s[..|s| - 1] == x + [sep] + p';
      assert part == p' + [part[|part| - 1]];
      SplitAppendPart(x, p', sep);
    }
  }

  /** `explode` undoes `implode` when no part holds the separator. */
  lemma {:induction false} JoinSplit(ps: seq<string>, sep: char)
    requires |ps| >= 1
    requires forall i :: 0 <= i < |ps| ==> sep !in ps[i]
    ensures Split(Join(ps, sep), sep) == ps
  {
    if |ps| == 1 {
      SplitNoSeparator(ps[0], sep);
    } else {
      var init := ps[..|ps| - 1];
      var last := ps[|ps| - 1];
      assert forall i :: 0 <= i < |init| ==> init[i] == ps[i];
      JoinSplit(init, sep);
      assert Join(ps, sep) == Join(init, sep) + [sep] + last;
      SplitAppendPart(Join(init, sep), last, sep);
      assert ps == init + [last];
    }
  }

  lemma JoinExtendLast(ps: seq<string>, c: char, sep: char)
    requires |ps| >= 1
    ensures Join(ps[..|ps| - 1] + [ps[|ps| - 1] + [c]], sep) == Join(ps, sep) + [c]
  {
    var q := ps[..|ps| - 1] + [ps[|ps| - 1] + [c]];
    assert q[..|q| - 1] == ps[..|ps| - 1];
  }

  lemma JoinAppendEmpty(ps: seq<string>, sep: char)
    requires |ps| >= 1
    ensures Join(ps + [[]], sep) == Join(ps, sep) + [sep]
  {
    assert (ps + [[]])[..|ps|] == ps;
  }

  /** `$s[$i..]` starts with `p` at `i`. */
  predicate OccursAt(s: string, p: string, i: int)
  {
    0 <= i && i + |p| <= |s| && s[i..i + |p|] == p
  }

  /** `p` is a substring of `s`. */
  predicate Contains(s: string, p: string)
  {
    exists i :: 0 <= i <= |s| && OccursAt(s, p, i)
  }

  /** Laravel `Str::contains($s, $p)` with one needle: an empty needle is never found. */
  predicate StrContains(s: string, p: string)
  {
    p != [] && Contains(s, p)
  }

  /** PHP `str_starts_with`. */
  predicate StartsWith(s: string, p: string)
  {
    |p| <= |s| && s[..|p|] == p
  }

  /** The first occurrence of `p` in `s` at or after `from`. */
  function FirstIndexFrom(s: string, p: string, from: nat): (r: Option<nat>)
    requires from <= |s|
    ensures r.Some? ==> from <= r.value && OccursAt(s, p, r.value)
    ensures r.Some? ==> forall j :: from <= j < r.value ==> !OccursAt(s, p, j)
    ensures r.None? ==> forall j :: from <= j ==> !OccursAt(s, p, j)
    decreases |s| - from
  {
    if from + |p| > |s| then None
    else if s[from..from + |p|] == p then Some(from)
    else if from == |s| then None
    else FirstIndexFrom(s, p, from + 1)
  }

  /** PHP `strpos($s, $p)`: the least index where `p` occurs, or nothing. */
  function Strpos(s: string, p: string): (r: Option<nat>)
    ensures r.Some? <==> Contains(s, p)
    ensures r.Some? ==> OccursAt(s, p, r.value) && forall j :: 0 <= j < r.value ==> !OccursAt(s, p, j)
  {
    FirstIndexFrom(s, p, 0)
  }

  /**
   * PHP `str_replace($pat, $rep, $s)`: occurrences are found left to right
   * and do not overlap; the replacement text is not scanned again.
   */
  function ReplaceAll(s: string, pat: string, rep: string): (r: string)
    requires pat != []
    ensures rep == pat ==> r == s
    decreases |s|
  {
    if |s| < |pat| then s
    else if s[..|pat|] == pat then rep + ReplaceAll(s[|pat|..], pat, rep)
    else [s[0]] + ReplaceAll(s[1..], pat, rep)
  }

  /** A text without the pattern is left as it is. */
  lemma {:induction false} ReplaceAllAbsent(s: string, pat: string, rep: string)
    requires pat != []
    requires !Contains(s, pat)
    ensures ReplaceAll(s, pat, rep) == s
    decreases |s|
  {
    if |s| >= |pat| {
      assert !OccursAt(s, pat, 0);
      assert !Contains(s[1..], pat) by {
        forall i | OccursAt(s[1..], pat, i) ensures OccursAt(s, pat, i + 1) {
          assert s[1..][i..i + |pat|] == s[i + 1..i + 1 + |pat|];
        }
      }
      ReplaceAllAbsent(s[1..], pat, rep);
    }
  }

  /** A text that starts with the pattern starts, after the replacement, with the replacement. */
  lemma ReplaceAllPrefix(pat: string, s: string, rep: string)
    requires pat != []
    ensures ReplaceAll(pat + s, pat, rep) == rep + ReplaceAll(s, pat, rep)
  {
    var t := pat + s;
    assert t[..|pat|] == pat;
    assert t[|pat|..] == s;
  }

  /**
   * Text before the first occurrence is copied, that occurrence is replaced,
   * and the scan resumes after it: the replacement itself is never rescanned.
   */
  lemma {:induction false} ReplaceAllFirstOccurrence(a: string, pat: string, b: string, rep: string)
    requires pat != []
    requires !Contains(a + pat[..|pat| - 1], pat)
    ensures ReplaceAll(a + pat + b, pat, rep) == a + rep + ReplaceAll(b, pat, rep)
    decreases |a|
  {
    var s := a + pat + b;
    if a == [] {
      assert s == pat + b;
      ReplaceAllPrefix(pat, b, rep);
    } else {
      var x := a + pat[..|pat| - 1];
      var x' := a[1..] + pat[..|pat| - 1];
      assert s[..|pat|] == x[..|pat|];
      assert !OccursAt(x, pat, 0);
      assert s[1..] == a[1..] + pat + b;
      assert x' == x[1..];
      assert !Contains(x', pat) by {
        forall i | 0 <= i <= |x'| && OccursAt(x', pat, i)
          ensures OccursAt(x, pat, i + 1)
        {
          assert x'[i..i + |pat|] == x[i + 1..i + 1 + |pat|];
        }
      }
      ReplaceAllFirstOccurrence(a[1..], pat, b, rep);
      assert a + rep + ReplaceAll(b, pat, rep) == [a[0]] + (a[1..] + rep + ReplaceAll(b, pat, rep));
    }
  }
}
