/**
 * The input loader `readSNIList` (main.go): every scanned line is trimmed
 * with `strings.TrimSpace`, lines that are empty after trimming are dropped,
 * and the rest are kept in file order. Opening and scanning the file are
 * I/O; the model starts from the lines the scanner delivered.
 */
module SniList {
  import opened Text
  import opened Seqs

  /**
   * An empty or whitespace-only line; by the contract of `TrimSpace` these are
   * exactly the lines that are empty after trimming.
   */
  predicate IsBlank(line: string) {
    AllSpace(line)
  }

  /**
   * The host list that `readSNIList` returns for the scanned `lines`, defined
   * line by line from the front of the file.
   */
  function Cleaned(lines: seq<string>): (hosts: seq<string>)
    ensures |hosts| <= |lines|
    ensures forall k :: 0 <= k < |hosts| ==> hosts[k] != "" && NoEdgeSpace(hosts[k])
  {
    if lines == [] then []
    else
      var line := TrimSpace(lines[|lines| - 1]);
      Cleaned(lines[..|lines| - 1]) + (if line != "" then [line] else [])
  }

  /** The loop of `readSNIList`: trim each line and append the non-empty ones. */
  method ReadSNIList(lines: seq<string>) returns (sniList: seq<string>)
    ensures sniList == Cleaned(lines)
  {
    sniList := [];
    var i := 0;
    while i < |lines|
      invariant 0 <= i <= |lines|
      invariant sniList == Cleaned(lines[..i])
    {
      var line := TrimSpace(lines[i]);
      if line != "" {
        sniList := sniList + [line];
      }
      assert lines[..i + 1][..i] == lines[..i];
      i := i + 1;
    }
    assert lines[..|lines|] == lines;
  }

  /** The positions of the lines that are not blank, in file order. */
  function NonBlankLines(lines: seq<string>): (idx: seq<nat>)
    ensures Increasing(idx)
    ensures forall k :: 0 <= k < |idx| ==> idx[k] < |lines|
    ensures forall i :: 0 <= i < |lines| ==> (i in idx <==> !IsBlank(lines[i]))
  {
    if lines == [] then []
    else
      var n := |lines| - 1;
      var prefix := lines[..n];
      var rest := NonBlankLines(prefix);
      var idx := rest + (if IsBlank(lines[n]) then [] else [n]);
      assert forall i :: 0 <= i < n ==> (i in idx <==> i in rest);
      idx
  }

  /**
   * The k-th host returned is the trimmed form of the k-th non-blank line:
   * together with the contract of `NonBlankLines`, every non-blank line gives
   * exactly one entry, in file order, and nothing else does.
   */
  lemma {:induction false} CleanedFollowsLines(lines: seq<string>)
    ensures |Cleaned(lines)| == |NonBlankLines(lines)|
    ensures forall k :: 0 <= k < |Cleaned(lines)| ==>
      Cleaned(lines)[k] == TrimSpace(lines[NonBlankLines(lines)[k]])
  {
    if lines != [] {
      var n := |lines| - 1;
      var prefix := lines[..n];
      var hosts, hosts' := Cleaned(lines), Cleaned(prefix);
      var idx, idx' := NonBlankLines(lines), NonBlankLines(prefix);
      var line := TrimSpace(lines[n]);
      CleanedFollowsLines(prefix);
      assert hosts == hosts' + (if line != "" then [line] else []);
      assert idx == idx' + (if IsBlank(lines[n]) then [] else [n]);
      assert line != "" <==> !IsBlank(lines[n]);
      forall k | 0 <= k < |hosts| ensures hosts[k] == TrimSpace(lines[idx[k]]) {
        if k < |hosts'| {
          assert hosts[k] == hosts'[k] && idx[k] == idx'[k];
          assert lines[idx'[k]] == prefix[idx'[k]];
        }
      }
    }
  }

  /** Reading a file in two parts gives the two host lists one after the other. */
  lemma {:induction false} CleanedAppend(a: seq<string>, b: seq<string>)
    ensures Cleaned(a + b) == Cleaned(a) + Cleaned(b)
  {
    if b == [] {
      assert a + b == a;
    } else {
      var n := |b| - 1;
      assert (a + b)[..|a + b| - 1] == a + b[..n];
      assert (a + b)[|a + b| - 1] == b[n];
      CleanedAppend(a, b[..n]);
    }
  }

  /** A run of lines that are all blank. */
  predicate AllBlank(lines: seq<string>) {
    forall i :: 0 <= i < |lines| ==> IsBlank(lines[i])
  }

  lemma {:induction false} BlankLinesClean(blanks: seq<string>)
    requires AllBlank(blanks)
    ensures Cleaned(blanks) == []
  {
    if blanks != [] {
      BlankLinesClean(blanks[..|blanks| - 1]);
    }
  }

  /**
   * Inserting blank or whitespace-only lines anywhere in the file, or
   * removing them, does not change the host list.
   */
  lemma {:induction false} BlankLinesIgnored(a: seq<string>, blanks: seq<string>, b: seq<string>)
    requires AllBlank(blanks)
    ensures Cleaned(a + blanks + b) == Cleaned(a + b)
  {
    CleanedAppend(a + blanks, b);
    CleanedAppend(a, blanks);
    BlankLinesClean(blanks);
    CleanedAppend(a, b);
  }

  /**
   * Reading back a file that holds a returned host list, one host per line,
   * gives the same list.
   */
  lemma {:induction false} CleanedIdempotent(lines: seq<string>)
    ensures Cleaned(Cleaned(lines)) == Cleaned(lines)
  {
    if lines != [] {
      var n := |lines| - 1;
      var prefix := lines[..n];
      var line := TrimSpace(lines[n]);
      CleanedIdempotent(prefix);
      if line != "" {
        CleanedAppend(Cleaned(prefix), [line]);
        TrimSpaceIdempotent(lines[n]);
        assert Cleaned([line]) == Cleaned([]) + [line] by {
          assert [line][..0] == [];
        }
      } else {
        assert Cleaned(lines) == Cleaned(prefix);
      }
    }
  }
}
