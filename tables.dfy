/**
 * Table-name selection of tools/vdb-dump/vdb-dump-helper.c: the list
 * searches `list_contains_value` and `list_contains_value_starting_with`,
 * and the two helpers that record the chosen table in the dump context.
 *
 * A `KNamelist` is modelled as a sequence of names; the failures of
 * `KNamelistCount` and `KNamelistGet` are not modelled. `StringCompare` is
 * modelled as equality of the two strings.
 */
module Tables {
  import opened Wrappers

  /**
   * `value` is no longer than `entry` and equals its first |value|
   * characters: the test `list_contains_value_starting_with` applies after
   * truncating the entry to the length of `value`.
   */
  predicate StartsWith(entry: string, value: string) {
    |value| <= |entry| && entry[..|value|] == value
  }

  /** Index of the first name that starts with `value`, if any. */
  function FirstStartingWith(names: seq<string>, value: string): (r: Option<nat>)
    ensures r.Some? ==> r.value < |names| && StartsWith(names[r.value], value)
    ensures r.Some? ==> forall j :: 0 <= j < r.value ==> !StartsWith(names[j], value)
    ensures r.None? ==> forall j :: 0 <= j < |names| ==> !StartsWith(names[j], value)
  {
    if names == [] then None
    else if StartsWith(names[0], value) then Some(0)
    else match FirstStartingWith(names[1..], value)
      case None => None
      case Some(k) => Some(k + 1)
  }

  /**
   * The name `vdh_take_this_table_from_list` selects: `want` itself when the
   * list holds it exactly, otherwise the first entry that starts with it.
   */
  function SelectTable(names: seq<string>, want: string): (r: Option<string>)
    ensures want in names ==> r == Some(want)
    ensures want !in names ==> (r.Some? <==> exists i :: 0 <= i < |names| && StartsWith(names[i], want))
    ensures r.Some? ==> r.value in names && StartsWith(r.value, want)
    ensures want !in names && r.Some? ==>
      exists i :: 0 <= i < |names| && names[i] == r.value &&
        forall j :: 0 <= j < i ==> !StartsWith(names[j], want)
  {
    if want in names then
      assert StartsWith(want, want);
      Some(want)
    else match FirstStartingWith(names, want)
      case None => None
      case Some(i) => Some(names[i])
  }

  /** `list_contains_value`: whether `value` is one of the names. */
  method ListContainsValue(names: seq<string>, value: string) returns (found: bool)
    ensures found <==> value in names
  {
    found := false;
    var i := 0;
    while i < |names| && !found
      invariant 0 <= i <= |names|
      invariant found ==> value in names
      invariant !found ==> forall j :: 0 <= j < i ==> names[j] != value
    {
      var item := names[i];
      found := item == value;
      i := i + 1;
    }
  }

  /**
   * `list_contains_value_starting_with`: finds the first name, in list order,
   * that starts with `value`; names shorter than `value` are skipped.
   */
  method ListContainsValueStartingWith(names: seq<string>, value: string) returns (res: bool, found: string)
    ensures res <==> FirstStartingWith(names, value).Some?
    ensures res ==> found == names[FirstStartingWith(names, value).value]
  {
    res := false;
    found := "";
    var i := 0;
    while i < |names| && !res
      invariant 0 <= i <= |names|
      invariant !res ==> forall j :: 0 <= j < i ==> !StartsWith(names[j], value)
      invariant res ==> 0 < i && StartsWith(names[i - 1], value) && found == names[i - 1]
      invariant res ==> forall j :: 0 <= j < i - 1 ==> !StartsWith(names[j], value)
    {
      var item := names[i];
      if |value| <= |item| {
        var truncated := item[..|value|];
        res := truncated == value;
        if res {
          found := item;
        }
      }
      i := i + 1;
    }
    if res {
      FirstIsUnique(names, value, i - 1);
    }
  }

  /** Only one index can be the first qualifying one. */
  lemma FirstIsUnique(names: seq<string>, value: string, i: nat)
    requires i < |names| && StartsWith(names[i], value)
    requires forall j :: 0 <= j < i ==> !StartsWith(names[j], value)
    ensures FirstStartingWith(names, value) == Some(i)
  {
  }

  /**
   * The part of `dump_context` these helpers touch: the name of the table
   * to dump (None while unset).
   */
  class DumpContext {
    var table: Option<string>

    constructor ()
      ensures table == None
    {
      table := None;
    }

    /**
     * `vdh_take_1st_table_from_db`: selects the first name of a non-empty
     * list; an empty list leaves the context unchanged.
     */
    method TakeFirstTable(names: seq<string>) returns (found: bool)
      modifies this
      ensures found <==> |names| > 0
      ensures table == if found then Some(names[0]) else old(table)
    {
      found := false;
      var count := |names|;
      if count > 0 {
        var name := names[0];
        table := Some(name);
        found := true;
      }
    }

    /**
     * `vdh_take_this_table_from_list`: an exact match wins; otherwise the
     * first name starting with `want` is taken; with neither the context
     * is unchanged.
     */
    method TakeThisTableFromList(names: seq<string>, want: string) returns (res: bool)
      modifies this
      ensures res <==> SelectTable(names, want).Some?
      ensures table == if res then SelectTable(names, want) else old(table)
    {
      res := ListContainsValue(names, want);
      if res {
        table := Some(want);
      } else {
        var found;
        res, found := ListContainsValueStartingWith(names, want);
        if res {
          table := Some(found);
        }
      }
    }
  }

  /**
   * The exact name is preferred even when an earlier entry merely starts
   * with it.
   */
  lemma ExactMatchBeatsEarlierPrefix()
    ensures SelectTable(["SEQUENCE_2", "SEQUENCE"], "SEQUENCE") == Some("SEQUENCE")
    ensures SelectTable(["REFERENCE", "SEQUENCE_2", "SEQUENCE_3"], "SEQ") == Some("SEQUENCE_2")
    ensures SelectTable(["SEQ"], "SEQUENCE") == None
  {
    assert "SEQUENCE_2"[..3] == "SEQ";
    assert "REFERENCE"[..3][0] != "SEQ"[0];
    assert "SEQ" !in ["REFERENCE", "SEQUENCE_2", "SEQUENCE_3"];
  }
}
