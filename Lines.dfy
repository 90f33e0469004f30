/**
 * Cleaning of the path catalog and of the site list: every line is stripped
 * of surrounding whitespace and lines that are blank are dropped, both in
 * `load_admin_paths` and in `check_multiple_sites`.
 */
module Lines {
  import opened Strings

  /** A line that survives cleaning: non-empty, with no whitespace at either end. */
  predicate IsCleanLine(l: string) {
    l != [] && !IsSpace(l[0]) && !IsSpace(l[|l| - 1])
  }

  /** `[line.strip() for line in lines if line.strip()]`. */
  function CleanLines(lines: seq<string>): (r: seq<string>)
    ensures |r| <= |lines|
    ensures forall k :: 0 <= k < |r| ==> IsCleanLine(r[k])
  {
    if lines == [] then []
    else
      var l := Strip(lines[0]);
      var rest := CleanLines(lines[1..]);
      if l == [] then rest else ConsClean(l, rest); [l] + rest
  }

  /** Putting one more clean line in front keeps a list clean. */
  lemma ConsClean(l: string, rest: seq<string>)
    requires IsCleanLine(l)
    requires forall k :: 0 <= k < |rest| ==> IsCleanLine(rest[k])
    ensures forall k :: 0 <= k < |[l] + rest| ==> IsCleanLine(([l] + rest)[k])
  {
    forall k | 0 < k < |[l] + rest|
      ensures IsCleanLine(([l] + rest)[k])
    {
      assert ([l] + rest)[k] == rest[k - 1];
    }
  }

  /** Cleaning works line by line: it distributes over concatenation of line lists. */
  lemma {:induction false} CleanLinesAppend(a: seq<string>, b: seq<string>)
    ensures CleanLines(a + b) == CleanLines(a) + CleanLines(b)
    decreases |a|
  {
    if a == [] {
      assert a + b == b;
    } else {
      assert (a + b)[1..] == a[1..] + b;
      CleanLinesAppend(a[1..], b);
    }
  }

  /** One line: kept, stripped, unless it is blank. */
  lemma CleanLinesSingle(l: string)
    ensures CleanLines([l]) == if AllSpace(l) then [] else [Strip(l)]
  {
    StripBlankIff(l);
    assert [l][1..] == [];
  }

  /**
   * The cleaned list holds exactly the stripped forms of the lines that are
   * not blank.
   */
  lemma {:induction false} CleanLinesMembers(lines: seq<string>, x: string)
    ensures x in CleanLines(lines) <==>
              exists k :: 0 <= k < |lines| && !AllSpace(lines[k]) && x == Strip(lines[k])
    decreases |lines|
  {
    if lines != [] {
      CleanLinesMembers(lines[1..], x);
      StripBlankIff(lines[0]);
      if x in CleanLines(lines) && x !in CleanLines(lines[1..]) {
        assert x == Strip(lines[0]);
      }
      if exists k :: 0 <= k < |lines| && !AllSpace(lines[k]) && x == Strip(lines[k]) {
        var k :| 0 <= k < |lines| && !AllSpace(lines[k]) && x == Strip(lines[k]);
        if k > 0 {
          assert lines[1..][k - 1] == lines[k];
        }
      }
    }
  }

  /** A list that has been cleaned is left alone by a second cleaning. */
  lemma {:induction false} CleanLinesIdempotent(lines: seq<string>)
    ensures CleanLines(CleanLines(lines)) == CleanLines(lines)
    decreases |lines|
  {
    if lines != [] {
      var l := Strip(lines[0]);
      var rest := CleanLines(lines[1..]);
      CleanLinesIdempotent(lines[1..]);
      StripIdempotent(lines[0]);
      if l != [] {
        CleanLinesAppend([l], rest);
      } else {
        assert CleanLines(lines) == rest;
      }
    }
  }
}
