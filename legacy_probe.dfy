/**
 * The `test_file` of the older converters: read at most five lines and
 * accept the file when one of them holds a marker tag. The file is the
 * sequence of what `readline` returns, line by line; an empty string, or
 * running past the end of the sequence, is the end of the file.
 */
module LegacyProbe {
  import opened Text

  /** The number of lines read before giving up. */
  const Lines := 5

  /** Whether a marker turns up within the first `n` lines before the end of the file. */
  function Probe(lines: seq<string>, marker: string, n: nat): bool
    decreases n
  {
    if n == 0 || lines == [] || lines[0] == "" then false
    else if Contains(lines[0], marker) then true
    else Probe(lines[1..], marker, n - 1)
  }

  /** No end of file up to and including line `i`. */
  predicate NotEndedBy(lines: seq<string>, i: nat)
    requires i < |lines|
  {
    forall j :: 0 <= j <= i ==> lines[j] != ""
  }

  /**
   * The probe succeeds exactly when one of the first `n` lines holds the
   * marker and no line before it ends the file.
   */
  lemma {:induction false} ProbeFinds(lines: seq<string>, marker: string, n: nat)
    ensures Probe(lines, marker, n) <==>
              exists i :: 0 <= i < n && i < |lines| && Contains(lines[i], marker) && NotEndedBy(lines, i)
    decreases n
  {
    if n == 0 || lines == [] {
    } else if lines[0] == "" {
      forall i | 0 <= i < n && i < |lines|
        ensures !NotEndedBy(lines, i)
      {
        assert lines[0] == "";
      }
    } else if Contains(lines[0], marker) {
      assert NotEndedBy(lines, 0);
    } else {
      var rest := lines[1..];
      ProbeFinds(rest, marker, n - 1);
      if Probe(rest, marker, n - 1) {
        var i :| 0 <= i < n - 1 && i < |rest| && Contains(rest[i], marker) && NotEndedBy(rest, i);
        assert lines[i + 1] == rest[i];
        assert NotEndedBy(lines, i + 1) by {
          forall j | 0 <= j <= i + 1
            ensures lines[j] != ""
          {
            if j > 0 {
              assert lines[j] == rest[j - 1];
            }
          }
        }
      } else {
        forall i | 0 < i < n && i < |lines| && Contains(lines[i], marker)
          ensures !NotEndedBy(lines, i)
        {
          assert rest[i - 1] == lines[i];
          var j :| 0 <= j <= i - 1 && rest[j] == "";
          assert lines[j + 1] == "";
        }
      }
    }
  }

  /** The loop of `test_file`: at most five `readline` calls. */
  method TestLines(lines: seq<string>, marker: string) returns (r: bool)
    ensures r == Probe(lines, marker, Lines)
  {
    var i := 0;
    while i < Lines
      invariant i <= Lines && i <= |lines|
      invariant Probe(lines, marker, Lines) == Probe(lines[i..], marker, Lines - i)
    {
      var line := if i < |lines| then lines[i] else "";
      if line == "" {
        return false;
      }
      if Contains(line, marker) {
        return true;
      }
      assert lines[i..][1..] == lines[i + 1..];
      i := i + 1;
    }
    return false;
  }
}
