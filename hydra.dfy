/** The add-hydra command of das/hydra.go: turning the listen addresses a
    Hydra booster reports into bootstrap addresses and appending them to an
    IPFS configuration. The HTTP request, the JSON decoding and the reading
    and writing of the configuration file are I/O; their outcomes are inputs
    here. */
module Hydra {
  import opened Common

  /** The decoded answer of the booster's /heads endpoint. */
  datatype HydraHeads = HydraHeads(addrs: seq<string>, id: string)

  /** The IPFS configuration: its bootstrap list, and everything else carried
      along unchanged as opaque settings. */
  datatype IpfsConfig = IpfsConfig(bootstrap: seq<string>, rest: map<string, string>)

  /** The text placed between an address and the peer id ("%s/p2p/$%s"). */
  const PeerSeparator := "/p2p/$"

  /** The bootstrap address built from one listen address and the peer id. */
  function BootstrapAddress(addr: string, id: string): string
  {
    addr + PeerSeparator + id
  }

  /** A bootstrap address falls apart into the listen address, the separator
      and the peer id, so both can be read back from it. */
  lemma BootstrapAddressParts(addr: string, id: string)
    ensures var b := BootstrapAddress(addr, id);
      && |b| == |addr| + |PeerSeparator| + |id|
      && b[..|addr|] == addr
      && b[|addr|..|addr| + |PeerSeparator|] == PeerSeparator
      && EndsWith(b, id)
  {
    var b := BootstrapAddress(addr, id);
    assert b[..|addr|] == addr;
    assert b[|addr|..|addr| + |PeerSeparator|] == PeerSeparator;
    assert b[|b| - |id|..] == id;
  }

  /** Two bootstrap addresses with the same peer id are equal only when their
      listen addresses are: no address is lost by the rendering. */
  lemma BootstrapAddressInjective(a1: string, a2: string, id: string)
    requires BootstrapAddress(a1, id) == BootstrapAddress(a2, id)
    ensures a1 == a2
  {
    var b := BootstrapAddress(a1, id);
    assert |a1| == |a2|;
    assert a1 == b[..|a1|];
    assert a2 == BootstrapAddress(a2, id)[..|a2|];
  }

  /** hydraHeadsResp.IDs: one bootstrap address per listen address, in order,
      written into a buffer of the final length. */
  method IDs(h: HydraHeads) returns (out: seq<string>)
    ensures |out| == |h.addrs|
    ensures forall i :: 0 <= i < |out| ==> out[i] == BootstrapAddress(h.addrs[i], h.id)
    ensures forall i :: 0 <= i < |out| ==> h.addrs[i] <= out[i] && EndsWith(out[i], h.id)
  {
    var buf := new string[|h.addrs|];
    for i := 0 to |h.addrs|
      invariant forall k :: 0 <= k < i ==> buf[k] == BootstrapAddress(h.addrs[k], h.id)
    {
      buf[i] := h.addrs[i] + PeerSeparator + h.id;
    }
    out := buf[..];
    forall i | 0 <= i < |out|
      ensures h.addrs[i] <= out[i] && EndsWith(out[i], h.id)
    {
      BootstrapAddressParts(h.addrs[i], h.id);
    }
  }

  /** AddHydraIDs: the heads are fetched, the configuration read, the new
      bootstrap addresses appended after the existing ones and the
      configuration written back. `fetched`, `read` and `writeErr` are the
      outcomes of the request, the read and the write; `written` is what is
      handed to the write, if it is reached. */
  method AddHydraIDs(fetched: Result<HydraHeads, string>, read: Result<IpfsConfig, string>, writeErr: Option<string>)
    returns (err: Option<string>, written: Option<IpfsConfig>)
    ensures fetched.Failure? ==> err == Some(fetched.error) && written == None
    ensures fetched.Success? && read.Failure? ==> err == Some(read.error) && written == None
    ensures fetched.Success? && read.Success? ==>
      && err == writeErr
      && written.Some?
      && written.value.rest == read.value.rest
      && |written.value.bootstrap| == |read.value.bootstrap| + |fetched.value.addrs|
      && written.value.bootstrap[..|read.value.bootstrap|] == read.value.bootstrap
      && forall i :: 0 <= i < |fetched.value.addrs| ==>
           written.value.bootstrap[|read.value.bootstrap| + i]
             == BootstrapAddress(fetched.value.addrs[i], fetched.value.id)
  {
    if fetched.Failure? {
      return Some(fetched.error), None;
    }
    var ids := IDs(fetched.value);
    if read.Failure? {
      return Some(read.error), None;
    }
    var cfg := read.value;
    var boots := cfg.bootstrap + ids;
    cfg := cfg.(bootstrap := boots);
    return writeErr, Some(cfg);
  }
}
