/** The node-side setup tool of setup/main.go: adding a validator's address to
    the comma-separated persistent-peer list of a node configuration. Loading
    and saving the TOML configuration and reading the address table are file
    I/O; their outcomes are inputs here. */
module Setup {
  import opened Common

  // ---------------------------------------------------------------------
  // Decimal rendering of an integer (the "%d" verb)
  // ---------------------------------------------------------------------

  predicate IsDigit(c: char)
  {
    '0' <= c <= '9'
  }

  function DigitChar(d: nat): (c: char)
    requires d < 10
    ensures IsDigit(c)
  {
    (48 + d) as char
  }

  function DigitValue(c: char): nat
    requires IsDigit(c)
  {
    (c as int) - 48
  }

  /** The decimal digits of `n`, most significant first, without leading
      zeros. */
  function NatDecimal(n: nat): (s: string)
    decreases n
  {
    if n < 10 then [DigitChar(n)] else NatDecimal(n / 10) + [DigitChar(n % 10)]
  }

  /** "%d" of a Go int: a minus sign for negative values, then the digits. */
  function Decimal(n: int): string
  {
    if n < 0 then "-" + NatDecimal(-n) else NatDecimal(n)
  }

  /** The value of a string of decimal digits. */
  function DecimalValue(s: string): nat
    requires forall k :: 0 <= k < |s| ==> IsDigit(s[k])
  {
    if s == [] then 0 else DecimalValue(s[..|s| - 1]) * 10 + DigitValue(s[|s| - 1])
  }

  /** The rendering of a natural number is a non-empty string of digits that
      reads back as the number, with no leading zero unless it is "0". */
  lemma {:induction false} NatDecimalRoundTrip(n: nat)
    ensures |NatDecimal(n)| > 0
    ensures forall k :: 0 <= k < |NatDecimal(n)| ==> IsDigit(NatDecimal(n)[k])
    ensures DecimalValue(NatDecimal(n)) == n
    ensures NatDecimal(n)[0] == '0' ==> n == 0
    decreases n
  {
    if n >= 10 {
      NatDecimalRoundTrip(n / 10);
      var s := NatDecimal(n);
      assert s[..|s| - 1] == NatDecimal(n / 10);
    }
  }

  // ---------------------------------------------------------------------
  // The persistent-peer list
  // ---------------------------------------------------------------------

  /** The entry for a peer: "ip:port". */
  function PeerAddress(peer: string, port: int): string
  {
    peer + ":" + Decimal(port)
  }

  /** The switch of addPersistentPeer: the entry alone when the list is empty,
      otherwise the list, a comma and the entry. */
  function Appended(list: string, entry: string): string
  {
    if list == "" then entry else list + "," + entry
  }

  /** The parts `p` with `c` added to the end of the last one. */
  function ExtendLast(p: seq<string>, c: char): (q: seq<string>)
    requires |p| >= 1
    ensures |q| == |p|
  {
    p[..|p| - 1] + [p[|p| - 1] + [c]]
  }

  /** Go's strings.Split on ",": the text between commas, always at least one
      part. */
  function SplitCommas(s: string): (parts: seq<string>)
    ensures |parts| >= 1
  {
    if s == [] then [""]
    else if s[|s| - 1] == ',' then SplitCommas(s[..|s| - 1]) + [""]
    else ExtendLast(SplitCommas(s[..|s| - 1]), s[|s| - 1])
  }

  /** The entries of a peer list; the empty list has none. */
  function Entries(list: string): seq<string>
  {
    if list == "" then [] else SplitCommas(list)
  }

  /** SplitCommas of a text extended by one character, in terms of the parts
      of the text. */
  lemma SplitCommasSnoc(s: string, c: char)
    ensures SplitCommas(s + [c]) == if c == ',' then SplitCommas(s) + [""] else ExtendLast(SplitCommas(s), c)
  {
    assert (s + [c])[..|s|] == s;
  }

  /** A text without commas is one part. */
  lemma {:induction false} SplitCommasSingle(s: string)
    requires ',' !in s
    ensures SplitCommas(s) == [s]
  {
    if s != [] {
      var init, c := s[..|s| - 1], s[|s| - 1];
      assert s == init + [c];
      SplitCommasSingle(init);
      assert SplitCommas(s) == ExtendLast(SplitCommas(init), c);
    }
  }

  /** Extending the last part of a concatenation extends the last part of its
      second half. */
  lemma ExtendLastConcat(p: seq<string>, q: seq<string>, c: char)
    requires |q| >= 1
    ensures ExtendLast(p + q, c) == p + ExtendLast(q, c)
  {
    assert (p + q)[..|p + q| - 1] == p + q[..|q| - 1];
  }

  /** Splitting at a comma splits the parts of both sides apart. */
  lemma {:induction false} SplitCommasJoin(a: string, b: string)
    ensures SplitCommas(a + [','] + b) == SplitCommas(a) + SplitCommas(b)
  {
    if b == [] {
      assert a + [','] + b == a + [','];
      SplitCommasSnoc(a, ',');
    } else {
      var init, c := b[..|b| - 1], b[|b| - 1];
      var pa, pi := SplitCommas(a), SplitCommas(init);
      SplitCommasJoin(a, init);
      assert a + [','] + b == (a + [','] + init) + [c];
      assert b == init + [c];
      SplitCommasSnoc(a + [','] + init, c);
      SplitCommasSnoc(init, c);
      if c == ',' {
        assert (pa + pi) + [""] == pa + (pi + [""]);
      } else {
        ExtendLastConcat(pa, pi, c);
      }
    }
  }

  /** The decimal rendering of an integer contains no comma. */
  lemma DecimalHasNoComma(n: int)
    ensures ',' !in Decimal(n)
  {
    NatDecimalRoundTrip(if n < 0 then -n else n);
  }

  /** Adding an entry without commas to a peer list adds exactly that entry
      after the entries already there: none is lost, changed or reordered. */
  lemma AppendedEntries(list: string, entry: string)
    requires entry != ""
    requires ',' !in entry
    ensures Entries(Appended(list, entry)) == Entries(list) + [entry]
  {
    SplitCommasSingle(entry);
    if list != "" {
      assert list + "," + entry == list + [','] + entry;
      SplitCommasJoin(list, entry);
    }
  }

  /** Adding a peer whose address has no comma adds exactly its "ip:port"
      entry to the entries already in the list. */
  lemma PeerAddressEntries(list: string, peer: string, port: int)
    requires ',' !in peer
    ensures Entries(Appended(list, PeerAddress(peer, port))) == Entries(list) + [PeerAddress(peer, port)]
  {
    DecimalHasNoComma(port);
    AppendedEntries(list, PeerAddress(peer, port));
  }

  /** The old list is a prefix of the new one, and the new one ends with the
      entry. */
  lemma AppendedExtends(list: string, entry: string)
    ensures list <= Appended(list, entry)
    ensures EndsWith(Appended(list, entry), entry)
  {
    var r := Appended(list, entry);
    assert r[|r| - |entry|..] == entry;
    if list != "" {
      assert r[..|list|] == list;
    }
  }

  // ---------------------------------------------------------------------
  // The node configuration
  // ---------------------------------------------------------------------

  /** The transaction-indexer settings; the Go zero value is `DefaultTxIndex`. */
  datatype TxIndexConfig = TxIndexConfig(indexer: string)

  const DefaultTxIndex := TxIndexConfig("")

  /** The fields of the node configuration this tool reads or writes. */
  class NodeConfig {
    var persistentPeers: string
    var logFormat: string
    var txIndex: TxIndexConfig
    var rpcListenAddress: string

    constructor (persistentPeers: string, logFormat: string, txIndex: TxIndexConfig, rpcListenAddress: string)
      ensures this.persistentPeers == persistentPeers && this.logFormat == logFormat
      ensures this.txIndex == txIndex && this.rpcListenAddress == rpcListenAddress
    {
      this.persistentPeers := persistentPeers;
      this.logFormat := logFormat;
      this.txIndex := txIndex;
      this.rpcListenAddress := rpcListenAddress;
    }
  }

  /** addPersistentPeer: renders "peer:port" and appends it to the list, with a
      comma unless the list was empty. No other field changes. */
  method AddPersistentPeer(peer: string, port: int, cfg: NodeConfig)
    modifies cfg`persistentPeers
    ensures cfg.persistentPeers == Appended(old(cfg.persistentPeers), PeerAddress(peer, port))
  {
    var entry := peer + ":" + Decimal(port);
    if cfg.persistentPeers == "" {
      cfg.persistentPeers := entry;
    } else {
      cfg.persistentPeers := cfg.persistentPeers + "," + entry;
    }
  }

  /** The port every peer is added with. */
  const PeerPort: int := 26656

  /** The body of the addpeer command. `loadErr` is what loading the node
      configuration reported, `ips` the outcome of reading the name-to-address
      table, `name` the command's first argument; `saved` tells whether the
      configuration is written back. */
  method AddPeerCmd(loadErr: Option<string>, cfg: NodeConfig, ips: Result<map<string, string>, string>, name: string)
    returns (err: Option<string>, saved: bool)
    modifies cfg
    ensures loadErr != None ==> err == loadErr && !saved && unchanged(cfg)
    ensures loadErr == None && ips.Failure? ==> err == Some(ips.error) && !saved && unchanged(cfg)
    ensures loadErr == None && ips.Success? && name !in ips.value ==>
      err == Some("no public IP for " + name + " found") && !saved && unchanged(cfg)
    ensures loadErr == None && ips.Success? && name in ips.value ==>
      && err == None && saved
      && cfg.persistentPeers == Appended(old(cfg.persistentPeers), PeerAddress(ips.value[name], PeerPort))
      && cfg.logFormat == "plain"
      && cfg.txIndex == DefaultTxIndex
      && cfg.rpcListenAddress == old(cfg.rpcListenAddress)
  {
    if loadErr != None {
      return loadErr, false;
    }
    if ips.Failure? {
      return Some(ips.error), false;
    }
    if name !in ips.value {
      return Some("no public IP for " + name + " found"), false;
    }
    var ip := ips.value[name];
    AddPersistentPeer(ip, PeerPort, cfg);
    cfg.logFormat := "plain";
    cfg.txIndex := DefaultTxIndex;
    return None, true;
  }
}
