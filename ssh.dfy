/** The SSH side of ssh.go: the rune reversal helper, the private-key loader
    that turns PEM text into a signer, and the bookkeeping of the pool of
    connections, one per declared droplet. Dialling, opening files, PEM
    decoding, decryption and key parsing are calls into libraries and the
    operating system; they are oracles here, passed in as functions. */
module Ssh {
  import opened Common
  import opened FleetConfig

  // ---------------------------------------------------------------------
  // reverse
  // ---------------------------------------------------------------------

  /** Reference definition of reversal, peeling the outermost pair of runes
      off at each step, as the two-pointer loop does. */
  function Reversed(s: seq<char>): seq<char>
    decreases |s|
  {
    if |s| <= 1 then s
    else [s[|s| - 1]] + Reversed(s[1..|s| - 1]) + [s[0]]
  }

  /** Reversal keeps the number of runes. */
  lemma {:induction false} ReversedLength(s: seq<char>)
    ensures |Reversed(s)| == |s|
    decreases |s|
  {
    if |s| > 1 {
      ReversedLength(s[1..|s| - 1]);
    }
  }

  /** Position `k` of the reversal holds input rune `|s| - 1 - k`. */
  lemma {:induction false} ReversedIndex(s: seq<char>, k: int)
    requires 0 <= k < |s|
    ensures |Reversed(s)| == |s|
    ensures Reversed(s)[k] == s[|s| - 1 - k]
    decreases |s|
  {
    ReversedLength(s);
    if |s| > 1 && 0 < k < |s| - 1 {
      var middle := s[1..|s| - 1];
      ReversedLength(middle);
      ReversedIndex(middle, k - 1);
      assert Reversed(s)[k] == Reversed(middle)[k - 1];
    }
  }

  /** Reversing twice gives the input back. */
  lemma ReversedInvolution(s: seq<char>)
    ensures Reversed(Reversed(s)) == s
  {
    var r := Reversed(s);
    ReversedLength(s);
    ReversedLength(r);
    forall k | 0 <= k < |s|
      ensures Reversed(r)[k] == s[k]
    {
      ReversedIndex(r, k);
      ReversedIndex(s, |s| - 1 - k);
    }
  }

  /** reverse: copies the runes into an array and swaps them pairwise from both
      ends towards the middle. */
  method Reverse(s: seq<char>) returns (r: seq<char>)
    ensures r == Reversed(s)
  {
    var n := |s|;
    var runes := new char[n](k requires 0 <= k < n => s[k]);
    var i, j := 0, n - 1;
    while i < j
      invariant 0 <= i <= n && j == n - 1 - i
      invariant i <= j + 1
      invariant forall k :: 0 <= k < i ==> runes[k] == s[n - 1 - k] && runes[n - 1 - k] == s[k]
      invariant forall k :: i <= k <= j ==> runes[k] == s[k]
    {
      runes[i], runes[j] := runes[j], runes[i];
      i, j := i + 1, j - 1;
    }
    r := runes[..];
    ReversedLength(s);
    forall k | 0 <= k < n
      ensures r[k] == Reversed(s)[k]
    {
      ReversedIndex(s, k);
    }
  }

  // ---------------------------------------------------------------------
  // Private keys
  // ---------------------------------------------------------------------

  /** A decoded PEM block: its type line, its headers and its payload. */
  datatype PemBlock = PemBlock(blockType: string, headers: map<string, string>, bytes: seq<bv8>)

  /** The key encodings the loader dispatches on. */
  datatype KeyFamily = Rsa | Ec | Dsa

  /** A parsed private key: its family and the parser's opaque result. */
  datatype PrivateKey = PrivateKey(family: KeyFamily, material: seq<bv8>)

  /** A signer usable for public-key authentication, opaque to the core. */
  datatype Signer = Signer(identity: seq<bv8>)

  /** The library calls the loader makes, as opaque functions:
      pem.Decode, x509.IsEncryptedPEMBlock, x509.DecryptPEMBlock,
      x509.ParsePKCS1PrivateKey, x509.ParseECPrivateKey, ssh.ParseDSAPrivateKey,
      ssh.NewSignerFromKey and ssh.ParsePrivateKey. */
  datatype KeyLibrary = KeyLibrary(
    pemDecode: seq<bv8> -> Option<PemBlock>,
    isEncrypted: PemBlock -> bool,
    decrypt: (PemBlock, seq<bv8>) -> Result<seq<bv8>, string>,
    parsePKCS1: seq<bv8> -> Result<seq<bv8>, string>,
    parseEC: seq<bv8> -> Result<seq<bv8>, string>,
    parseDSA: seq<bv8> -> Result<seq<bv8>, string>,
    newSignerFromKey: PrivateKey -> Result<Signer, string>,
    parsePrivateKey: seq<bv8> -> Result<Signer, string>)

  /** The errors of the key loader. Each `cause` is the text of the library
      error it wraps. */
  datatype KeyError =
    | NoKeyFound
    | DecryptFailed(cause: string)
    | ParseFailed(family: KeyFamily, cause: string)
    | UnsupportedKeyType(blockType: string)
    | SignerFailed(cause: string)
    | PlainParseFailed(cause: string)
  {
    /** The text of the Go error value. */
    function Message(): string
    {
      match this
      case NoKeyFound => "Pem decode failed, no key found"
      case DecryptFailed(cause) => "Decrypting PEM block failed " + cause
      case ParseFailed(Rsa, cause) => "Parsing PKCS private key failed " + cause
      case ParseFailed(Ec, cause) => "Parsing EC private key failed " + cause
      case ParseFailed(Dsa, cause) => "Parsing DSA private key failed " + cause
      case UnsupportedKeyType(blockType) => "Parsing private key failed, unsupported key type \"" + blockType + "\""
      case SignerFailed(cause) => "Creating signer from encrypted key failed " + cause
      case PlainParseFailed(cause) => "Parsing plain private key failed " + cause
    }
  }

  /** The PEM type line of each supported family. */
  function BlockType(family: KeyFamily): string
  {
    match family
    case Rsa => "RSA PRIVATE KEY"
    case Ec => "EC PRIVATE KEY"
    case Dsa => "DSA PRIVATE KEY"
  }

  /** The dispatch of parsePemBlock: which family a type line selects. Exactly
      the three type lines of BlockType select a family. */
  function FamilyOf(blockType: string): (family: Option<KeyFamily>)
    ensures family.Some? ==> BlockType(family.value) == blockType
    ensures family.None? ==> forall f :: BlockType(f) != blockType
  {
    if blockType == "RSA PRIVATE KEY" then Some(Rsa)
    else if blockType == "EC PRIVATE KEY" then Some(Ec)
    else if blockType == "DSA PRIVATE KEY" then Some(Dsa)
    else None
  }

  /** Each family's type line selects that family again. */
  lemma FamilyOfBlockType(family: KeyFamily)
    ensures FamilyOf(BlockType(family)) == Some(family)
  {
  }

  /** The library parser for a family. */
  function ParserFor(lib: KeyLibrary, family: KeyFamily): seq<bv8> -> Result<seq<bv8>, string>
  {
    match family
    case Rsa => lib.parsePKCS1
    case Ec => lib.parseEC
    case Dsa => lib.parseDSA
  }

  /** parsePemBlock: parses the block's payload with the parser of the family
      its type line names; any other type line is an unsupported key type. */
  function ParsePemBlock(block: PemBlock, lib: KeyLibrary): (r: Result<PrivateKey, KeyError>)
    ensures FamilyOf(block.blockType).None? <==> r == Failure(UnsupportedKeyType(block.blockType))
    ensures r.Success? ==>
      && FamilyOf(block.blockType) == Some(r.value.family)
      && ParserFor(lib, r.value.family)(block.bytes) == Success(r.value.material)
    ensures r.Failure? && FamilyOf(block.blockType).Some? ==>
      var family := FamilyOf(block.blockType).value;
      && ParserFor(lib, family)(block.bytes).Failure?
      && r.error == ParseFailed(family, ParserFor(lib, family)(block.bytes).error)
  {
    match FamilyOf(block.blockType)
    case None => Failure(UnsupportedKeyType(block.blockType))
    case Some(family) =>
      match ParserFor(lib, family)(block.bytes)
      case Success(material) => Success(PrivateKey(family, material))
      case Failure(cause) => Failure(ParseFailed(family, cause))
  }

  /** signerFromPem: decodes the first PEM block; an encrypted block is
      decrypted with the password, parsed by its type and wrapped in a signer;
      otherwise the whole input is handed to the plain parser and the password
      is not used. */
  function SignerFromPem(pemBytes: seq<bv8>, password: seq<bv8>, lib: KeyLibrary): (r: Result<Signer, KeyError>)
    ensures lib.pemDecode(pemBytes).None? ==> r == Failure(NoKeyFound)
    ensures lib.pemDecode(pemBytes).Some? && lib.isEncrypted(lib.pemDecode(pemBytes).value) ==>
      var block := lib.pemDecode(pemBytes).value;
      var decrypted := lib.decrypt(block, password);
      && (decrypted.Failure? ==> r == Failure(DecryptFailed(decrypted.error)))
      && (decrypted.Success? && FamilyOf(block.blockType).None? ==> r == Failure(UnsupportedKeyType(block.blockType)))
      && (decrypted.Success? ==>
            var key := ParsePemBlock(block.(bytes := decrypted.value), lib);
            && (key.Failure? ==> r == Failure(key.error))
            && (key.Success? && lib.newSignerFromKey(key.value).Failure? ==>
                  r == Failure(SignerFailed(lib.newSignerFromKey(key.value).error)))
            && (key.Success? && lib.newSignerFromKey(key.value).Success? ==>
                  r == Success(lib.newSignerFromKey(key.value).value)))
      && (r.Success? ==>
            && decrypted.Success?
            && ParsePemBlock(block.(bytes := decrypted.value), lib).Success?
            && lib.newSignerFromKey(ParsePemBlock(block.(bytes := decrypted.value), lib).value) == Success(r.value))
    ensures lib.pemDecode(pemBytes).Some? && !lib.isEncrypted(lib.pemDecode(pemBytes).value) ==>
      && (r.Success? <==> lib.parsePrivateKey(pemBytes).Success?)
      && (r.Success? ==> r.value == lib.parsePrivateKey(pemBytes).value)
      && (r.Failure? ==> r.error == PlainParseFailed(lib.parsePrivateKey(pemBytes).error))
  {
    match lib.pemDecode(pemBytes)
    case None => Failure(NoKeyFound)
    case Some(block) =>
      if lib.isEncrypted(block) then
        match lib.decrypt(block, password)
        case Failure(cause) => Failure(DecryptFailed(cause))
        case Success(plain) =>
          match ParsePemBlock(block.(bytes := plain), lib)
          case Failure(e) => Failure(e)
          case Success(key) =>
            match lib.newSignerFromKey(key)
            case Failure(cause) => Failure(SignerFailed(cause))
            case Success(signer) => Success(signer)
      else
        match lib.parsePrivateKey(pemBytes)
        case Failure(cause) => Failure(PlainParseFailed(cause))
        case Success(signer) => Success(signer)
  }

  /** For an unencrypted key the password makes no difference. */
  lemma PlainKeyIgnoresPassword(pemBytes: seq<bv8>, p1: seq<bv8>, p2: seq<bv8>, lib: KeyLibrary)
    requires lib.pemDecode(pemBytes).Some?
    requires !lib.isEncrypted(lib.pemDecode(pemBytes).value)
    ensures SignerFromPem(pemBytes, p1, lib) == SignerFromPem(pemBytes, p2, lib)
  {
  }

  /** A signer from an encrypted block always comes from one of the three
      supported families. */
  lemma EncryptedSignerHasSupportedFamily(pemBytes: seq<bv8>, password: seq<bv8>, lib: KeyLibrary)
    requires lib.pemDecode(pemBytes).Some?
    requires lib.isEncrypted(lib.pemDecode(pemBytes).value)
    requires SignerFromPem(pemBytes, password, lib).Success?
    ensures exists f :: BlockType(f) == lib.pemDecode(pemBytes).value.blockType
  {
    var block := lib.pemDecode(pemBytes).value;
    var family := FamilyOf(block.blockType);
    assert family.Some?;
    assert BlockType(family.value) == block.blockType;
  }

  // ---------------------------------------------------------------------
  // Connection pool
  // ---------------------------------------------------------------------

  /** An open SSH client. `closeErr` is what closing it reports; `closeCalls`
      counts the calls to Close. */
  class SshClient {
    const closeErr: Option<string>
    var closeCalls: nat

    constructor (closeErr: Option<string>)
      ensures this.closeErr == closeErr && closeCalls == 0
    {
      this.closeErr := closeErr;
      closeCalls := 0;
    }

    method Close() returns (err: Option<string>)
      modifies this
      ensures closeCalls == old(closeCalls) + 1
      ensures err == closeErr
    {
      closeCalls := closeCalls + 1;
      err := closeErr;
    }
  }

  /** The local output file a connection appends to. `closeErr` is what
      closing it reports; `closeCalls` counts the calls to Close. */
  class OutputFile {
    const closeErr: Option<string>
    var closeCalls: nat

    constructor (closeErr: Option<string>)
      ensures this.closeErr == closeErr && closeCalls == 0
    {
      this.closeErr := closeErr;
      closeCalls := 0;
    }

    method Close() returns (err: Option<string>)
      modifies this
      ensures closeCalls == old(closeCalls) + 1
      ensures err == closeErr
    {
      closeCalls := closeCalls + 1;
      err := closeErr;
    }
  }

  /** What NewConnection produced when it succeeded: what closing the client
      and closing the output file will report. */
  datatype Opened = Opened(clientCloseErr: Option<string>, outputCloseErr: Option<string>)

  /** One connection: an SSH client, the declaration it serves and its output
      file. */
  class Connection {
    const client: SshClient
    const drop: Droplet
    const output: OutputFile

    constructor (drop: Droplet, outcome: Opened)
      ensures this.drop == drop && fresh(client) && fresh(output)
      ensures client.closeErr == outcome.clientCloseErr && output.closeErr == outcome.outputCloseErr
      ensures client.closeCalls == 0 && output.closeCalls == 0
    {
      this.drop := drop;
      client := new SshClient(outcome.clientCloseErr);
      output := new OutputFile(outcome.outputCloseErr);
    }

    /** Close: closes the client; if that fails its error is returned and the
        output file is left open, otherwise the output file is closed and its
        result returned. */
    method Close() returns (err: Option<string>)
      modifies client, output
      ensures client.closeCalls == old(client.closeCalls) + 1
      ensures client.closeErr != None ==> err == client.closeErr && output.closeCalls == old(output.closeCalls)
      ensures client.closeErr == None ==> err == output.closeErr && output.closeCalls == old(output.closeCalls) + 1
    {
      err := client.Close();
      if err != None {
        return;
      }
      err := output.Close();
    }
  }

  /** What Close reports for a connection. */
  function CloseResult(c: Connection): Option<string>
  {
    if c.client.closeErr != None then c.client.closeErr else c.output.closeErr
  }

  /** The line CloseAll logs for a connection whose Close failed. */
  function CloseFailureLine(name: string, cause: string): string
  {
    "failure to close ssh session for " + name + ": " + cause
  }

  /** The close counts of `c`, which were `client0` and `output0`, after one
      call of Close if `closed` holds and after none otherwise. */
  predicate ClosedOnceIf(c: Connection, client0: nat, output0: nat, closed: bool)
    reads c.client, c.output
  {
    && c.client.closeCalls == client0 + (if closed then 1 else 0)
    && c.output.closeCalls == output0 + (if closed && c.client.closeErr == None then 1 else 0)
  }

  /** The clients and output files of a set of connections. */
  ghost function Handles(conns: map<string, Connection>): set<object>
  {
    (set name | name in conns :: conns[name].client as object)
    + (set name | name in conns :: conns[name].output as object)
  }

  /** No two names share a client or an output file. */
  ghost predicate Unshared(conns: map<string, Connection>)
  {
    forall a, b :: a in conns && b in conns && a != b ==>
      conns[a].client != conns[b].client && conns[a].output != conns[b].output
  }

  /** The pool of connections, by droplet name. `Repr` holds the clients and
      output files the pool owns. */
  class SSHManager {
    var conns: map<string, Connection>
    ghost var Repr: set<object>

    ghost predicate Valid()
      reads this
    {
      && this !in Repr
      && (forall name :: name in conns ==> conns[name].client in Repr && conns[name].output in Repr)
      && Unshared(conns)
    }

    constructor (conns: map<string, Connection>)
      requires Unshared(conns)
      ensures this.conns == conns && Repr == Handles(conns) && Valid()
    {
      this.conns := conns;
      Repr := Handles(conns);
    }

    /** Against the close counts `client0` and `output0` recorded for each
        name, the connections under the names in `visited` have been closed
        once and all others not at all. */
    ghost predicate ClosedExactly(client0: map<string, nat>, output0: map<string, nat>, visited: set<string>)
      requires Valid()
      reads this, Repr
    {
      forall name :: name in conns ==>
        && name in client0 && name in output0
        && ClosedOnceIf(conns[name], client0[name], output0[name], name in visited)
    }

    /** Closes the connection stored under `name` and touches no other
        connection of the pool. */
    method CloseEntry(name: string, ghost client0: map<string, nat>, ghost output0: map<string, nat>, ghost visited: set<string>)
      returns (err: Option<string>)
      requires Valid() && name in conns && name !in visited
      requires ClosedExactly(client0, output0, visited)
      modifies Repr
      ensures Valid()
      ensures err == CloseResult(conns[name])
      ensures ClosedExactly(client0, output0, visited + {name})
    {
      var c := conns[name];
      err := c.Close();
      forall other | other in conns && other != name
        ensures ClosedOnceIf(conns[other], client0[other], output0[other], other in visited + {name})
      {
        assert conns[other].client != c.client && conns[other].output != c.output;
      }
    }

    /** CloseAll: closes every connection, whatever earlier closes reported,
        and logs one line for each close that failed. `logged` holds the
        logged lines by name. */
    method CloseAll() returns (logged: map<string, string>)
      requires Valid()
      modifies Repr
      ensures forall name :: name in conns ==>
        conns[name].client.closeCalls == old(conns[name].client.closeCalls) + 1
      ensures forall name :: name in conns ==>
        conns[name].output.closeCalls == old(conns[name].output.closeCalls) + (if conns[name].client.closeErr == None then 1 else 0)
      ensures forall name :: name in logged <==> name in conns && CloseResult(conns[name]) != None
      ensures forall name :: name in logged ==> logged[name] == CloseFailureLine(name, CloseResult(conns[name]).value)
    {
      logged := map[];
      ghost var clientCalls := map name | name in conns :: conns[name].client.closeCalls;
      ghost var outputCalls := map name | name in conns :: conns[name].output.closeCalls;
      var unvisited := conns.Keys;
      while unvisited != {}
        invariant Valid()
        invariant unvisited <= conns.Keys
        invariant ClosedExactly(clientCalls, outputCalls, conns.Keys - unvisited)
        invariant forall name :: name in logged <==> name in conns && name !in unvisited && CloseResult(conns[name]) != None
        invariant forall name :: name in logged ==> logged[name] == CloseFailureLine(name, CloseResult(conns[name]).value)
        decreases unvisited
      {
        var name :| name in unvisited;
        var err := CloseEntry(name, clientCalls, outputCalls, conns.Keys - unvisited);
        if err != None {
          logged := logged[name := CloseFailureLine(name, err.value)];
        }
        assert conns.Keys - unvisited + {name} == conns.Keys - (unvisited - {name});
        unvisited := unvisited - {name};
      }
    }
  }

  /** The position in `order` of the first declaration whose connection
      attempt fails, or |order| when none does. */
  function FirstFailing(order: seq<string>, drops: map<string, Droplet>, connect: Droplet -> Result<Opened, string>): (k: nat)
    requires forall i :: 0 <= i < |order| ==> order[i] in drops
    ensures k <= |order|
    ensures forall i :: 0 <= i < k ==> connect(drops[order[i]]).Success?
    ensures k < |order| ==> connect(drops[order[k]]).Failure?
  {
    if order == [] then 0
    else if connect(drops[order[0]]).Failure? then 0
    else 1 + FirstFailing(order[1..], drops, connect)
  }

  /** The first failing position is the one before which every attempt
      succeeds and at which one fails, or the end. */
  lemma FirstFailingAt(order: seq<string>, drops: map<string, Droplet>, connect: Droplet -> Result<Opened, string>, k: nat)
    requires forall i :: 0 <= i < |order| ==> order[i] in drops
    requires k <= |order|
    requires forall j :: 0 <= j < k ==> connect(drops[order[j]]).Success?
    requires k < |order| ==> connect(drops[order[k]]).Failure?
    ensures FirstFailing(order, drops, connect) == k
  {
  }

  /** The names among the first `i` of `order`. */
  function Visited(order: seq<string>, i: nat): set<string>
    requires i <= |order|
  {
    set j | 0 <= j < i :: order[j]
  }

  /** Visiting one more name adds that name. */
  lemma VisitedStep(order: seq<string>, i: nat)
    requires i < |order|
    ensures Visited(order, i + 1) == Visited(order, i) + {order[i]}
  {
  }

  /** An order that lists exactly the declared names visits all of them. */
  lemma VisitedAll(order: seq<string>, drops: map<string, Droplet>)
    requires forall name :: name in drops <==> name in order
    ensures Visited(order, |order|) == drops.Keys
  {
    forall name | name in drops
      ensures name in Visited(order, |order|)
    {
      var j :| 0 <= j < |order| && order[j] == name;
    }
  }

  /** The connections opened for the declarations in `conns`: each is bound
      to its declaration, carries the close outcomes `connect` reported, and
      has not been closed. */
  predicate Opening(conns: map<string, Connection>, drops: map<string, Droplet>, connect: Droplet -> Result<Opened, string>)
    reads set name | name in conns :: conns[name].client
    reads set name | name in conns :: conns[name].output
  {
    forall name :: name in conns ==>
      var c := conns[name];
      && name in drops
      && connect(drops[name]).Success?
      && c.drop == drops[name]
      && c.client.closeCalls == 0 && c.output.closeCalls == 0
      && c.client.closeErr == connect(drops[name]).value.clientCloseErr
      && c.output.closeErr == connect(drops[name]).value.outputCloseErr
  }

  /** The loop of NewSSHManager: connects the declarations in `order` until
      the first failure. `k` is where it stopped; `conns` holds what it opened
      before that. */
  method OpenInOrder(drops: map<string, Droplet>, order: seq<string>, connect: Droplet -> Result<Opened, string>)
    returns (conns: map<string, Connection>, k: nat)
    requires forall i :: 0 <= i < |order| ==> order[i] in drops
    ensures k == FirstFailing(order, drops, connect)
    ensures conns.Keys == Visited(order, k)
    ensures Opening(conns, drops, connect) && Unshared(conns)
    ensures forall name :: name in conns ==> fresh(conns[name]) && fresh(conns[name].client) && fresh(conns[name].output)
  {
    conns := map[];
    k := 0;
    while k < |order| && connect(drops[order[k]]).Success?
      invariant 0 <= k <= |order|
      invariant forall j :: 0 <= j < k ==> connect(drops[order[j]]).Success?
      invariant conns.Keys == Visited(order, k)
      invariant Opening(conns, drops, connect) && Unshared(conns)
      invariant forall name :: name in conns ==> fresh(conns[name]) && fresh(conns[name].client) && fresh(conns[name].output)
    {
      var name := order[k];
      var conn := new Connection(drops[name], connect(drops[name]).value);
      assert Opening(conns, drops, connect);
      assert forall n :: n in conns ==> conns[n].client != conn.client && conns[n].output != conn.output;
      conns := conns[name := conn];
      VisitedStep(order, k);
      k := k + 1;
    }
    FirstFailingAt(order, drops, connect, k);
  }

  /** NewSSHManager: opens one connection per declaration, visiting the names
      in `order` (Go's map iteration order, which the program does not fix),
      and gives up at the first one that fails. The connections opened before
      that failure are not closed: `leaked` holds them by name, all still
      open. `connect` stands for NewConnection. */
  method NewSSHManager(drops: map<string, Droplet>, order: seq<string>, connect: Droplet -> Result<Opened, string>)
    returns (m: SSHManager?, err: Option<string>, ghost leaked: map<string, Connection>)
    requires NoDuplicates(order)
    requires forall name :: name in drops <==> name in order
    ensures var k := FirstFailing(order, drops, connect);
      && (err == None <==> k == |order|)
      && (k < |order| ==> m == null && err == Some(connect(drops[order[k]]).error))
      && (k < |order| ==> leaked.Keys == Visited(order, k))
    ensures err == None ==> leaked == map[]
    ensures forall name :: name in leaked ==>
      var c := leaked[name];
      && name in drops && c.drop == drops[name]
      && fresh(c) && fresh(c.client) && fresh(c.output)
      && c.client.closeCalls == 0 && c.output.closeCalls == 0
    ensures err == None ==> m != null && fresh(m) && m.Valid() && m.conns.Keys == drops.Keys && m.Repr == Handles(m.conns)
    ensures err == None ==> forall name :: name in drops ==>
      var c := m.conns[name];
      && c.drop == drops[name]
      && fresh(c.client) && fresh(c.output)
      && c.client.closeCalls == 0 && c.output.closeCalls == 0
      && c.client.closeErr == connect(drops[name]).value.clientCloseErr
      && c.output.closeErr == connect(drops[name]).value.outputCloseErr
  {
    var conns, k := OpenInOrder(drops, order, connect);
    if k < |order| {
      return null, Some(connect(drops[order[k]]).error), conns;
    }
    VisitedAll(order, drops);
    m := new SSHManager(conns);
    err := None;
    leaked := map[];
  }
}
