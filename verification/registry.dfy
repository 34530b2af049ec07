/** The `connections` map of the service: the set of addresses that hold a
    stream. Admission is the check-then-insert in `wsHandler`; release is the
    `delete` in `handleWsMessages`. */
module Registry {

  /** Outcome of one admission attempt: whether it was admitted, and the
      registry afterwards. */
  datatype Admission = Admission(admitted: bool, conns: set<string>)

  /** Check `addr`, then register it. A registered address is refused and the
      registry is left as it was; an unregistered one is added and nothing else. */
  function Admit(conns: set<string>, addr: string): (a: Admission)
    ensures a.admitted <==> addr !in conns
    ensures addr in a.conns
    ensures conns <= a.conns
    ensures a.conns - conns <= {addr}
    ensures !a.admitted ==> a.conns == conns
  {
    if addr in conns then Admission(false, conns) else Admission(true, conns + {addr})
  }

  /** Remove `addr`; every other address keeps its membership, and removing an
      absent address changes nothing. */
  function Release(conns: set<string>, addr: string): (r: set<string>)
    ensures addr !in r
    ensures r <= conns
    ensures conns - r <= {addr}
    ensures addr !in conns ==> r == conns
  {
    conns - {addr}
  }

  /** A second attempt from the same address with no release in between is refused. */
  lemma AdmitTwiceRefused(conns: set<string>, addr: string)
    ensures !Admit(Admit(conns, addr).conns, addr).admitted
  {
  }

  /** Releasing an address that was just admitted restores the registry, and a
      released address can be admitted again. */
  lemma ReleaseUndoesAdmit(conns: set<string>, addr: string)
    ensures addr !in conns ==> Release(Admit(conns, addr).conns, addr) == conns
    ensures Admit(Release(conns, addr), addr).admitted
  {
  }

  /** Release is idempotent. */
  lemma ReleaseIdempotent(conns: set<string>, addr: string)
    ensures Release(Release(conns, addr), addr) == Release(conns, addr)
  {
  }

  /** A run of admission attempts with no release in between: which were
      admitted, and the registry afterwards. */
  function AdmitEach(conns: set<string>, addrs: seq<string>): (r: (seq<bool>, set<string>))
    ensures |r.0| == |addrs|
    ensures forall a :: a in r.1 <==> a in conns || a in addrs
    decreases |addrs|
  {
    if |addrs| == 0 then ([], conns)
    else
      var first := Admit(conns, addrs[0]);
      var rest := AdmitEach(first.conns, addrs[1..]);
      ([first.admitted] + rest.0, rest.1)
  }

  /** In a run of attempts, attempt `i` is admitted exactly when its address was
      neither registered before the run nor tried earlier in it; so of any
      number of attempts from one address at most one is admitted. */
  lemma {:induction false} AdmitEachAtMostOncePerAddress(conns: set<string>, addrs: seq<string>)
    ensures forall i :: 0 <= i < |addrs| ==>
      (AdmitEach(conns, addrs).0[i] <==> addrs[i] !in conns && addrs[i] !in addrs[..i])
    ensures forall i, j :: 0 <= i < j < |addrs| && addrs[i] == addrs[j] ==> !AdmitEach(conns, addrs).0[j]
    decreases |addrs|
  {
    if |addrs| > 0 {
      var first := Admit(conns, addrs[0]);
      AdmitEachAtMostOncePerAddress(first.conns, addrs[1..]);
      var r := AdmitEach(conns, addrs);
      forall i | 0 <= i < |addrs|
        ensures r.0[i] <==> addrs[i] !in conns && addrs[i] !in addrs[..i]
      {
        if i > 0 {
          assert addrs[1..][..i - 1] == addrs[1..i];
          assert addrs[..i] == [addrs[0]] + addrs[1..i];
        }
      }
      forall i, j | 0 <= i < j < |addrs| && addrs[i] == addrs[j]
        ensures !r.0[j]
      {
        assert addrs[i] in addrs[..j];
      }
    }
  }
}
