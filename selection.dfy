/**
 * The per-host selection loop of `main` (main.go). The three network probes
 * (`isPortOpen`, `checkSNI`, `measurePing`) are not modelled; what they
 * reported for a host is given to the model as an `Outcome`.
 */
module Selection {
  import opened Seqs

  /**
   * What the probes reported for one host: whether TCP port 443 accepted a
   * connection, whether the TLS handshake succeeded, whether the ping call
   * returned an error, and the average round-trip time (a Go
   * `time.Duration`, in nanoseconds) and packet loss in percent.
   */
  datatype Outcome = Outcome(portOpen: bool, tlsOk: bool, pingFailed: bool, avgRtt: int, loss: real)

  /** The `SNIResult` record: one per host that passed every check. */
  datatype SNIResult = SNIResult(host: string, ping: int, packetLoss: real, reachable: bool)

  /** The status reported for a host, in the order the loop tests for them. */
  datatype Verdict = PortClosed | PingFailed | HandshakeFailed | Accepted

  /**
   * The branch the loop takes for a host. A closed port is reported first; the
   * handshake is attempted next but its result is only looked at after the
   * ping, so a failed ping is what gets reported even when the handshake
   * failed too.
   */
  function Classify(o: Outcome): (v: Verdict)
    ensures v == Accepted <==> o.portOpen && o.tlsOk && !o.pingFailed && o.loss < 100.0
    ensures !o.portOpen ==> v == PortClosed
    ensures o.portOpen && (o.pingFailed || o.loss >= 100.0) ==> v == PingFailed
    ensures v == HandshakeFailed <==> o.portOpen && !o.tlsOk && !o.pingFailed && o.loss < 100.0
  {
    if !o.portOpen then PortClosed
    else if o.pingFailed || o.loss >= 100.0 then PingFailed
    else if o.tlsOk then Accepted
    else HandshakeFailed
  }

  /** The record appended for an accepted host. */
  function Record(host: string, o: Outcome): SNIResult {
    SNIResult(host, o.avgRtt, o.loss, true)
  }

  /**
   * The `results` slice after the loop has seen `hosts`, where `outcomes[i]`
   * is what the probes reported for `hosts[i]`.
   */
  function Collected(hosts: seq<string>, outcomes: seq<Outcome>): (results: seq<SNIResult>)
    requires |outcomes| == |hosts|
    ensures |results| <= |hosts|
    ensures forall k :: 0 <= k < |results| ==> results[k].reachable && results[k].packetLoss < 100.0
  {
    if hosts == [] then []
    else
      var n := |hosts| - 1;
      Collected(hosts[..n], outcomes[..n]) +
        (if Classify(outcomes[n]) == Accepted then [Record(hosts[n], outcomes[n])] else [])
  }

  /**
   * The loop over `sniList`: skip a host whose port is closed, skip it when
   * the ping failed or lost every packet, otherwise append its record if the
   * handshake succeeded.
   */
  method CollectResults(hosts: seq<string>, outcomes: seq<Outcome>) returns (results: seq<SNIResult>)
    requires |outcomes| == |hosts|
    ensures results == Collected(hosts, outcomes)
  {
    results := [];
    for i := 0 to |hosts|
      invariant results == Collected(hosts[..i], outcomes[..i])
    {
      assert hosts[..i + 1][..i] == hosts[..i] && outcomes[..i + 1][..i] == outcomes[..i];
      var sni, probe := hosts[i], outcomes[i];
      if !probe.portOpen {
        continue;
      }
      var reachable := probe.tlsOk;
      var pingTime, loss, pingFailed := probe.avgRtt, probe.loss, probe.pingFailed;
      if pingFailed || loss >= 100.0 {
        continue;
      }
      if reachable {
        results := results + [SNIResult(sni, pingTime, loss, true)];
      }
    }
    assert hosts[..|hosts|] == hosts && outcomes[..|outcomes|] == outcomes;
  }

  /** The positions of the hosts that passed every check, in input order. */
  function AcceptedHosts(outcomes: seq<Outcome>): (idx: seq<nat>)
    ensures Increasing(idx)
    ensures forall k :: 0 <= k < |idx| ==> idx[k] < |outcomes|
    ensures forall i :: 0 <= i < |outcomes| ==> (i in idx <==> Classify(outcomes[i]) == Accepted)
  {
    if outcomes == [] then []
    else
      var n := |outcomes| - 1;
      var rest := AcceptedHosts(outcomes[..n]);
      var idx := rest + (if Classify(outcomes[n]) == Accepted then [n] else []);
      assert forall i :: 0 <= i < n ==> (i in idx <==> i in rest);
      idx
  }

  /**
   * The k-th collected record belongs to the k-th accepted host: it carries
   * that host's name, measured ping and loss, and `reachable` set. With the
   * contract of `AcceptedHosts`, a host gets a record if and only if it passed
   * every check, and the records keep input order.
   */
  lemma {:induction false} CollectedFollowsHosts(hosts: seq<string>, outcomes: seq<Outcome>)
    requires |outcomes| == |hosts|
    ensures |Collected(hosts, outcomes)| == |AcceptedHosts(outcomes)|
    ensures forall k :: 0 <= k < |Collected(hosts, outcomes)| ==>
      var i := AcceptedHosts(outcomes)[k];
      Collected(hosts, outcomes)[k] == SNIResult(hosts[i], outcomes[i].avgRtt, outcomes[i].loss, true)
  {
    if hosts != [] {
      var n := |hosts| - 1;
      var h, o := hosts[..n], outcomes[..n];
      CollectedFollowsHosts(h, o);
      forall k | 0 <= k < |Collected(h, o)|
        ensures var i := AcceptedHosts(outcomes)[k];
          Collected(hosts, outcomes)[k] == SNIResult(hosts[i], outcomes[i].avgRtt, outcomes[i].loss, true)
      {
        var i := AcceptedHosts(o)[k];
        assert AcceptedHosts(outcomes)[k] == i;
        assert hosts[i] == h[i] && outcomes[i] == o[i];
      }
    }
  }

  /**
   * A record is collected exactly when some host passed every check and the
   * record is that host's name with its measured ping and loss.
   */
  lemma CollectedMembers(hosts: seq<string>, outcomes: seq<Outcome>, rec: SNIResult)
    requires |outcomes| == |hosts|
    ensures rec in Collected(hosts, outcomes) <==>
      exists i :: 0 <= i < |hosts| && Classify(outcomes[i]) == Accepted && rec == Record(hosts[i], outcomes[i])
  {
    var results, idx := Collected(hosts, outcomes), AcceptedHosts(outcomes);
    CollectedFollowsHosts(hosts, outcomes);
    if rec in results {
      var k :| 0 <= k < |results| && results[k] == rec;
      assert idx[k] in idx;
      assert rec == Record(hosts[idx[k]], outcomes[idx[k]]);
    }
    if exists i :: 0 <= i < |hosts| && Classify(outcomes[i]) == Accepted && rec == Record(hosts[i], outcomes[i]) {
      var i :| 0 <= i < |hosts| && Classify(outcomes[i]) == Accepted && rec == Record(hosts[i], outcomes[i]);
      assert i in idx;
      var k :| 0 <= k < |idx| && idx[k] == i;
      assert results[k] == rec;
    }
  }

  /** Probing a list in two parts collects the two parts' records one after the other. */
  lemma {:induction false} CollectedAppend(h1: seq<string>, o1: seq<Outcome>, h2: seq<string>, o2: seq<Outcome>)
    requires |o1| == |h1| && |o2| == |h2|
    ensures Collected(h1 + h2, o1 + o2) == Collected(h1, o1) + Collected(h2, o2)
  {
    if h2 == [] {
      assert h1 + h2 == h1 && o1 + o2 == o1;
    } else {
      var n := |h2| - 1;
      assert (h1 + h2)[..|h1 + h2| - 1] == h1 + h2[..n];
      assert (o1 + o2)[..|o1 + o2| - 1] == o1 + o2[..n];
      assert (h1 + h2)[|h1 + h2| - 1] == h2[n] && (o1 + o2)[|o1 + o2| - 1] == o2[n];
      CollectedAppend(h1, o1, h2[..n], o2[..n]);
    }
  }

  /** A list holding only a host that fails a check collects nothing. */
  lemma RejectedAlone(host: string, o: Outcome)
    requires Classify(o) != Accepted
    ensures Collected([host], [o]) == []
  {
    assert [host][..0] == [] && [o][..0] == [];
  }

  /**
   * A host that fails a check is only skipped: the hosts before and after it
   * give the same records as if it had not been in the list. In particular a
   * failed ping or a total loss drops a host whatever its handshake did.
   */
  lemma {:induction false} RejectedHostIsSkipped(h1: seq<string>, o1: seq<Outcome>, host: string, o: Outcome,
                              h2: seq<string>, o2: seq<Outcome>)
    requires |o1| == |h1| && |o2| == |h2|
    requires Classify(o) != Accepted
    ensures Collected(h1 + [host] + h2, o1 + [o] + o2) == Collected(h1 + h2, o1 + o2)
  {
    calc {
      Collected(h1 + [host] + h2, o1 + [o] + o2);
      { CollectedAppend(h1 + [host], o1 + [o], h2, o2); }
      Collected(h1 + [host], o1 + [o]) + Collected(h2, o2);
      { CollectedAppend(h1, o1, [host], [o]); RejectedAlone(host, o); }
      Collected(h1, o1) + Collected(h2, o2);
      { CollectedAppend(h1, o1, h2, o2); }
      Collected(h1 + h2, o1 + o2);
    }
  }
}
