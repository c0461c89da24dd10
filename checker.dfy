/**
 * The run of `main` (main.go) without its I/O: read the host list, probe
 * every host in order, collect the ones that passed, and rank them by ping.
 * Writing `sni_valid.txt` and the console output are not modelled.
 */
module Checker {
  import opened Wrappers
  import Text
  import opened SniList
  import opened Selection
  import opened Ranking

  /** The input file could not be opened or read; the run stops before probing. */
  datatype ReadError = ReadError

  /**
   * `input` is the scanned content of `sni.txt`, or `None` when it could not
   * be read; `outcomes[i]` is what the probes reported for the i-th host of
   * the cleaned list. The result is the ranked list that would be written.
   */
  method Run(input: Option<seq<string>>, outcomes: seq<Outcome>) returns (r: Result<seq<SNIResult>, ReadError>)
    requires input.Some? ==> |outcomes| == |Cleaned(input.value)|
    ensures r.Failure? <==> input.None?
    ensures r.Success? ==> SortedByPing(r.value)
    ensures r.Success? ==> multiset(r.value) == multiset(Collected(Cleaned(input.value), outcomes))
    ensures r.Success? ==> forall rec :: rec in r.value <==>
      exists i :: 0 <= i < |outcomes| && Classify(outcomes[i]) == Accepted &&
        rec == Record(Cleaned(input.value)[i], outcomes[i])
  {
    if input.None? {
      return Failure(ReadError);
    }
    var sniList := ReadSNIList(input.value);
    var results := CollectResults(sniList, outcomes);
    var a := new SNIResult[|results|](k requires 0 <= k < |results| => results[k]);
    assert a[..] == results;
    SortByPing(a);
    r := Success(a[..]);
    forall rec ensures rec in r.value <==> rec in results {
      assert rec in r.value <==> rec in multiset(r.value);
    }
    forall rec ensures rec in results <==>
      exists i :: 0 <= i < |outcomes| && Classify(outcomes[i]) == Accepted && rec == Record(sniList[i], outcomes[i])
    {
      CollectedMembers(sniList, outcomes, rec);
    }
  }

  /** The blank lines between two host names are dropped. */
  lemma {:induction false} BlanksBetween(a: string, b: string)
    requires a != "" && Text.NoEdgeSpace(a) && b != "" && Text.NoEdgeSpace(b)
    ensures Cleaned([a, "", "  ", b]) == [a, b]
  {
    var lines := [a, "", "  ", b];
    Text.TrimSpaceFixes(a);
    Text.TrimSpaceFixes(b);
    assert Text.AllSpace("  ");
    assert Cleaned(lines[..1]) == [a] by {
      assert lines[..1][..0] == [];
    }
    assert Cleaned(lines[..2]) == [a] by {
      assert lines[..2][..1] == lines[..1];
    }
    assert Cleaned(lines[..3]) == [a] by {
      assert lines[..3][..2] == lines[..2];
    }
  }

  /**
   * The run on the lines `a`, "", "  ", `b` (say "a.example" and "b.example"),
   * where `a` has port 443 closed and `b` passes every check (say with a
   * 12 ms average and no loss): the blank lines are dropped and exactly one
   * record remains, for `b`, with its measured ping and loss.
   */
  lemma {:induction false} OneSurvivor(a: string, b: string, oa: Outcome, ob: Outcome)
    requires a != "" && Text.NoEdgeSpace(a) && b != "" && Text.NoEdgeSpace(b)
    requires !oa.portOpen
    requires ob.portOpen && ob.tlsOk && !ob.pingFailed && ob.loss < 100.0
    ensures Cleaned([a, "", "  ", b]) == [a, b]
    ensures Collected([a, b], [oa, ob]) == [SNIResult(b, ob.avgRtt, ob.loss, true)]
  {
    BlanksBetween(a, b);
    assert Collected([a], [oa]) == [] by {
      assert [a][..0] == [] && [oa][..0] == [];
    }
    assert [a, b][..1] == [a] && [oa, ob][..1] == [oa];
  }
}
