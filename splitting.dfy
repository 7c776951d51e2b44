/**
 * Delimiter splitting of tools/vdb-dump/vdb-dump-helper.c: `split_buffer`
 * scans its input once and appends every maximal non-empty run of
 * non-delimiter characters to a caller-supplied vector, through
 * `copy_String_2_vector`, which appends only non-empty strings.
 */
module Splitting {

  /** The klib `Vector` of strings that `split_buffer` fills in place. */
  class StringVector {
    var items: seq<string>

    constructor ()
      ensures items == []
    {
      items := [];
    }

    /** `VectorInit`: the vector starts over empty. */
    method Init()
      modifies this
      ensures items == []
    {
      items := [];
    }

    /** `VectorAppend`: the new element goes last. */
    method Append(s: string)
      modifies this
      ensures items == old(items) + [s]
    {
      items := items + [s];
    }
  }

  /** The characters of the delimiter string, which `string_chr` looks up. */
  function DelimiterSet(delim: string): (d: set<char>)
    ensures forall c :: c in d <==> c in delim
  {
    set c | c in delim
  }

  /** No character of `t` is a delimiter. */
  predicate NoDelimiter(t: string, delims: set<char>) {
    forall k :: 0 <= k < |t| ==> t[k] !in delims
  }

  /** No character of `s[from..to]` is a delimiter, stated by position. */
  predicate NoDelimiterIn(s: string, from: nat, to: nat, delims: set<char>)
    requires from <= to <= |s|
  {
    forall k :: from <= k < to ==> s[k] !in delims
  }

  /** Length of the leading run of non-delimiter characters of `s`. */
  function RunLength(s: string, delims: set<char>): (n: nat)
    ensures n <= |s|
    ensures NoDelimiter(s[..n], delims)
    ensures n < |s| ==> s[n] in delims
  {
    if s == [] || s[0] in delims then 0 else 1 + RunLength(s[1..], delims)
  }

  /**
   * Reference definition of splitting: skip a delimiter, or take the whole
   * leading run of ordinary characters as one element.
   */
  function Split(s: string, delims: set<char>): seq<string>
    decreases |s|
  {
    if s == [] then []
    else if s[0] in delims then Split(s[1..], delims)
    else
      var n := RunLength(s, delims);
      [s[..n]] + Split(s[n..], delims)
  }

  /** `s` with every delimiter character removed. */
  function RemoveDelimiters(s: string, delims: set<char>): string {
    if s == [] then []
    else if s[0] in delims then RemoveDelimiters(s[1..], delims)
    else [s[0]] + RemoveDelimiters(s[1..], delims)
  }

  /** Concatenation of a list of strings. */
  function Concat(ss: seq<string>): string {
    if ss == [] then [] else ss[0] + Concat(ss[1..])
  }

  /** The strings of `words` separated by the single character `sep`. */
  function Join(words: seq<string>, sep: char): string {
    if words == [] then []
    else if |words| == 1 then words[0]
    else words[0] + [sep] + Join(words[1..], sep)
  }

  /**
   * `copy_String_2_vector`: a non-empty string is appended and 1 returned;
   * an empty one is dropped and 0 returned. Allocation is assumed to succeed.
   */
  method CopyStringToVector(v: StringVector, s: string) returns (res: nat)
    modifies v
    ensures |s| > 0 ==> res == 1 && v.items == old(v.items) + [s]
    ensures |s| == 0 ==> res == 0 && v.items == old(v.items)
  {
    res := 0;
    if |s| > 0 {
      v.Append(s);
      res := res + 1;
    }
  }

  /** A run of ordinary characters, ended by a delimiter or the end of input, is one element. */
  lemma {:induction false} RunThenRest(t: string, r: string, delims: set<char>)
    requires NoDelimiter(t, delims)
    requires r == [] || r[0] in delims
    ensures RunLength(t + r, delims) == |t|
  {
    if t != [] {
      assert (t + r)[1..] == t[1..] + r;
      RunThenRest(t[1..], r, delims);
    }
  }

  lemma {:induction false} SplitAfterRun(t: string, r: string, delims: set<char>)
    requires NoDelimiter(t, delims)
    requires r == [] || r[0] in delims
    ensures Split(t + r, delims) == (if t == [] then [] else [t]) + Split(r, delims)
  {
    if t == [] {
      assert t + r == r;
    } else {
      RunThenRest(t, r, delims);
      assert (t + r)[..|t|] == t;
      assert (t + r)[|t|..] == r;
    }
  }

  /** A delimiter in front contributes nothing. */
  lemma SplitSkipsDelimiter(r: string, delims: set<char>)
    requires r != [] && r[0] in delims
    ensures Split(r, delims) == Split(r[1..], delims)
  {
  }

  /**
   * The state of the scan after `i` characters: `done` are the elements
   * appended so far, and the pending span `s[from..i]` holds no delimiter;
   * the elements still to come are those of `s[from..]`.
   */
  predicate Scanned(s: string, delims: set<char>, done: seq<string>, from: nat, i: nat)
  {
    from <= i <= |s| && NoDelimiterIn(s, from, i, delims) &&
    done + Split(s[from..], delims) == Split(s, delims)
  }

  /** The elements of `s[from..]`, when `s[from..i]` is a run ended by a delimiter at `i`. */
  lemma SplitAtDelimiter(s: string, delims: set<char>, from: nat, i: nat)
    requires from <= i < |s| && NoDelimiterIn(s, from, i, delims) && s[i] in delims
    ensures Split(s[from..], delims) ==
            (if from < i then [s[from..i]] else []) + Split(s[i + 1..], delims)
  {
    var t, r := s[from..i], s[i..];
    assert NoDelimiter(t, delims);
    assert s[from..] == t + r;
    SplitAfterRun(t, r, delims);
    SplitSkipsDelimiter(r, delims);
    assert r[1..] == s[i + 1..];
  }

  /** Regrouping the pieces of a sequence. */
  lemma Regroup<T>(whole: seq<T>, a: seq<T>, b: seq<T>, f: seq<T>, c: seq<T>)
    requires a + b == whole && b == f + c
    ensures (a + f) + c == whole
  {
  }

  /** A delimiter at `i` flushes the pending span, if non-empty. */
  lemma CloseSpan(s: string, delims: set<char>, done: seq<string>, from: nat, i: nat)
    requires Scanned(s, delims, done, from, i) && i < |s| && s[i] in delims
    ensures Scanned(s, delims, done + if from < i then [s[from..i]] else [], i + 1, i + 1)
  {
    SplitAtDelimiter(s, delims, from, i);
    Regroup(Split(s, delims), done, Split(s[from..], delims),
            if from < i then [s[from..i]] else [], Split(s[i + 1..], delims));
  }

  /** An ordinary character at `i` extends the pending span. */
  lemma GrowSpan(s: string, delims: set<char>, done: seq<string>, from: nat, i: nat)
    requires Scanned(s, delims, done, from, i) && i < |s| && s[i] !in delims
    ensures Scanned(s, delims, done, from, i + 1)
  {
  }

  /** At the end of input the pending span is the last element, if non-empty. */
  lemma FinalSpan(s: string, delims: set<char>, done: seq<string>, from: nat)
    requires Scanned(s, delims, done, from, |s|)
    ensures done + (if from < |s| then [s[from..]] else []) == Split(s, delims)
  {
    var t := s[from..];
    assert NoDelimiter(t, delims);
    SplitAfterRun(t, [], delims);
    assert t + [] == t;
  }

  /**
   * `split_buffer(v, S, delim)`: `v` is re-initialised and then holds the
   * non-empty delimiter-free runs of `s` in input order; the result is the
   * number of elements appended.
   */
  method SplitBuffer(v: StringVector, s: string, delim: string) returns (res: nat)
    modifies v
    ensures v.items == Split(s, DelimiterSet(delim))
    ensures res == |v.items|
  {
    var delims := DelimiterSet(delim);
    res := 0;
    // the `temp` span: start and length inside `s`; length 0 stands for
    // the NULL address the source resets it to
    var tempStart, tempLen := 0, 0;
    v.Init();
    var i := 0;
    // the elements appended so far, and where the pending span begins
    ghost var done: seq<string> := [];
    ghost var from := 0;
    while i < |s|
      invariant Scanned(s, delims, done, from, i)
      invariant tempLen == i - from && tempStart + tempLen <= i
      invariant tempLen == 0 || tempStart == from
      invariant v.items == done && res == |done|
    {
      if s[i] in delims {
        // delimiter found
        CloseSpan(s, delims, done, from, i);
        var t := s[tempStart..tempStart + tempLen];
        assert t == s[from..i];
        var added := CopyStringToVector(v, t);
        res := res + added;
        tempStart, tempLen := 0, 0;
        done, from := done + if from < i then [s[from..i]] else [], i + 1;
      } else {
        // ordinary character
        GrowSpan(s, delims, done, from, i);
        if tempLen == 0 {
          tempStart := i;
        }
        tempLen := tempLen + 1;
      }
      i := i + 1;
    }
    FinalSpan(s, delims, done, from);
    var t := s[tempStart..tempStart + tempLen];
    assert t == s[from..];
    var added := CopyStringToVector(v, t);
    res := res + added;
  }

  /** Every element is non-empty and holds no delimiter character. */
  lemma {:induction false} SplitElementsAreWords(s: string, delims: set<char>)
    ensures forall k :: 0 <= k < |Split(s, delims)| ==>
      |Split(s, delims)[k]| > 0 && NoDelimiter(Split(s, delims)[k], delims)
    decreases |s|
  {
    if s != [] {
      if s[0] in delims {
        SplitElementsAreWords(s[1..], delims);
      } else {
        var n := RunLength(s, delims);
        SplitElementsAreWords(s[n..], delims);
      }
    }
  }

  lemma {:induction false} ConcatAppend(a: seq<string>, b: seq<string>)
    ensures Concat(a + b) == Concat(a) + Concat(b)
  {
    if a == [] {
      assert a + b == b;
    } else {
      assert (a + b)[1..] == a[1..] + b;
      ConcatAppend(a[1..], b);
    }
  }

  lemma {:induction false} RemoveDelimitersAppend(a: string, b: string, delims: set<char>)
    ensures RemoveDelimiters(a + b, delims) == RemoveDelimiters(a, delims) + RemoveDelimiters(b, delims)
  {
    if a == [] {
      assert a + b == b;
    } else {
      assert (a + b)[1..] == a[1..] + b;
      RemoveDelimitersAppend(a[1..], b, delims);
    }
  }

  lemma {:induction false} RemoveDelimitersOfWord(t: string, delims: set<char>)
    requires NoDelimiter(t, delims)
    ensures RemoveDelimiters(t, delims) == t
  {
    if t != [] {
      RemoveDelimitersOfWord(t[1..], delims);
    }
  }

  /**
   * The elements, concatenated in order, give back the input with every
   * delimiter removed: nothing is lost, duplicated or reordered.
   */
  lemma {:induction false} SplitConcat(s: string, delims: set<char>)
    ensures Concat(Split(s, delims)) == RemoveDelimiters(s, delims)
    decreases |s|
  {
    if s != [] {
      if s[0] in delims {
        SplitConcat(s[1..], delims);
      } else {
        var n := RunLength(s, delims);
        SplitConcat(s[n..], delims);
        assert s == s[..n] + s[n..];
        RemoveDelimitersAppend(s[..n], s[n..], delims);
        RemoveDelimitersOfWord(s[..n], delims);
        ConcatAppend([s[..n]], Split(s[n..], delims));
        assert Concat([s[..n]]) == s[..n] + Concat([]);
      }
    }
  }

  /**
   * Splitting undoes joining: non-empty delimiter-free words joined by a
   * delimiter split back into exactly those words.
   */
  lemma {:induction false} SplitJoin(words: seq<string>, sep: char, delims: set<char>)
    requires sep in delims
    requires forall k :: 0 <= k < |words| ==> |words[k]| > 0 && NoDelimiter(words[k], delims)
    ensures Split(Join(words, sep), delims) == words
  {
    if |words| == 1 {
      SplitAfterRun(words[0], [], delims);
      assert words[0] + [] == words[0];
    } else if |words| > 1 {
      var rest := [sep] + Join(words[1..], sep);
      SplitAfterRun(words[0], rest, delims);
      assert Join(words, sep) == words[0] + rest;
      assert rest[1..] == Join(words[1..], sep);
      SplitJoin(words[1..], sep, delims);
      assert words == [words[0]] + words[1..];
    }
  }

  /** Leading, doubled and trailing delimiters produce no elements. */
  lemma SplitDropsEmptySpans(a: char, b: char, c: char, delims: set<char>)
    requires c in delims && a !in delims && b !in delims
    ensures Split([a, c, c, b, c], delims) == [[a], [b]]
  {
    var s := [a, c, c, b, c];
    SplitAfterRun([b], [c], delims);
    SplitSkipsDelimiter([c], delims);
    assert [b] + [c] == s[3..];
    SplitSkipsDelimiter(s[1..], delims);
    SplitSkipsDelimiter(s[2..], delims);
    assert s[1..][1..] == s[2..] && s[2..][1..] == s[3..];
    SplitAfterRun([a], s[1..], delims);
    assert [a] + s[1..] == s;
  }
}
