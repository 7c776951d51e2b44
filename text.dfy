/**
 * Character-level comparisons of tools/vdb-dump/vdb-dump-helper.c:
 * the case-insensitive prefix test `vdh_str_starts_with`, the whole-word
 * test `matches` and the candidate search `index_of_match`.
 *
 * The klib primitives behind them are not part of this model; they are
 * modelled as follows. `strcase_cmp` compares characters after ASCII case
 * folding; `StringMatch` yields the length of the common prefix of its two
 * arguments, compared character by character. Characters are single bytes.
 */
module Text {
  import opened Wrappers

  /** ASCII lower-casing, the folding `strcase_cmp` applies to each character. */
  function ToLower(c: char): char {
    if 'A' <= c <= 'Z' then (c as int + 32) as char else c
  }

  /** Same length, and equal character by character after case folding. */
  predicate CaseFoldEqual(a: string, b: string) {
    |a| == |b| && forall i :: 0 <= i < |a| ==> ToLower(a[i]) == ToLower(b[i])
  }

  /**
   * `vdh_str_starts_with(a, b)`: `a` is at least as long as `b`, and its
   * first |b| characters equal `b` ignoring ASCII case.
   */
  function StartsWithCaseless(a: string, b: string): (r: bool)
    ensures |a| < |b| ==> !r
    ensures |b| <= |a| && a[..|b|] == b ==> r
    ensures r ==> forall i :: 0 <= i < |b| ==> ToLower(a[i]) == ToLower(b[i])
  {
    |a| >= |b| && CaseFoldEqual(a[..|b|], b)
  }

  /**
   * Only the letters' case-folded forms matter: strings that agree after
   * folding either both start with `b` or both do not.
   */
  lemma StartsWithIgnoresCase(a: string, a2: string, b: string)
    requires CaseFoldEqual(a, a2)
    ensures StartsWithCaseless(a, b) == StartsWithCaseless(a2, b)
  {
    if |b| <= |a| {
      assert forall i :: 0 <= i < |b| ==> a[..|b|][i] == a[i] && a2[..|b|][i] == a2[i];
    }
  }

  /**
   * The model of `StringMatch`: the number of leading characters on which
   * `a` and `b` agree.
   */
  function CommonPrefixLength(a: string, b: string): (n: nat)
    ensures n <= |a| && n <= |b|
    ensures a[..n] == b[..n]
    ensures n < |a| && n < |b| ==> a[n] != b[n]
  {
    if a == [] || b == [] || a[0] != b[0] then 0
    else
      var m := CommonPrefixLength(a[1..], b[1..]);
      assert a[..m + 1] == [a[0]] + a[1..][..m];
      assert b[..m + 1] == [b[0]] + b[1..][..m];
      m + 1
  }

  /**
   * `matches(cmd, pattern)`: the match length equals both lengths. This is
   * a whole-word test: it holds exactly when the two strings are equal, so
   * a word that only shares a prefix with the pattern never matches.
   */
  function Matches(cmd: string, pattern: string): (r: bool)
    ensures r <==> cmd == pattern
  {
    var matching := CommonPrefixLength(cmd, pattern);
    assert matching == |cmd| == |pattern| ==> cmd == cmd[..matching] && pattern == pattern[..matching];
    matching == |pattern| && matching == |cmd|
  }

  /**
   * `index_of_match(word, num, ...)` with the variadic candidates given as a
   * sequence (None stands for a NULL candidate). The result is -1 for a
   * NULL word; otherwise it is the first index whose candidate is present
   * and matches the whole word, or -1 when there is none.
   */
  method IndexOfMatch(word: Option<string>, candidates: seq<Option<string>>) returns (res: int)
    ensures word.None? ==> res == -1
    ensures res == -1 <==> (word.None? || forall j :: 0 <= j < |candidates| ==> candidates[j] != Some(word.value))
    ensures res != -1 ==> 0 <= res < |candidates| && word.Some? && candidates[res] == Some(word.value)
    ensures res != -1 ==> forall j :: 0 <= j < res ==> candidates[j] != Some(word.value)
  {
    res := -1;
    if word.Some? {
      var idx := 0;
      while idx < |candidates| && res < 0
        invariant 0 <= idx <= |candidates|
        invariant res == -1 || (0 <= res < idx && candidates[res] == Some(word.value))
        invariant res == -1 ==> forall j :: 0 <= j < idx ==> candidates[j] != Some(word.value)
        invariant res != -1 ==> forall j :: 0 <= j < res ==> candidates[j] != Some(word.value)
      {
        var arg := candidates[idx];
        if arg.Some? {
          if Matches(word.value, arg.value) {
            res := idx;
          }
        }
        idx := idx + 1;
      }
    }
  }

  /** The prefix test ignores case: an upper-case scheme is still recognised. */
  lemma UpperCaseSchemeStartsWith()
    ensures StartsWithCaseless("NCBI-ACC:SRR000001", "ncbi-acc:")
    ensures !StartsWithCaseless("ncbi-acc", "ncbi-acc:")
  {
    var a, b := "NCBI-ACC:SRR000001", "ncbi-acc:";
    assert a[..|b|] == "NCBI-ACC:";
    assert CaseFoldEqual(a[..|b|], b) by {
      forall i | 0 <= i < |b| ensures ToLower(a[..|b|][i]) == ToLower(b[i]) {
      }
    }
  }
}
