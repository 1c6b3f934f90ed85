/** The fleet description of config/config.go: the declared droplets, their
    validation, their reconciliation against the live droplet list, and the
    name-to-address export written into every payload directory. Reading and
    writing the JSON configuration, marshalling and template rendering are not
    part of this model; the file writes are an oracle passed in. */
module FleetConfig {
  import opened Common
  import opened DigitalOcean

  /** A node's role. In Go it is a plain `int`; 0..3 are the named roles. */
  type NodeType = int

  const Validator: NodeType := 0
  const Full: NodeType := 1
  const LightClient: NodeType := 2
  const DHT: NodeType := 3

  /** The display names of the named roles, indexed by role. */
  const NodeTypeNames: seq<string> := ["Validator", "Full", "LightClient", "DHT"]

  /** What any other role value displays as. */
  const UnrecognizedNodeType: string := "unrecognized node type"

  /** NodeType.String: a switch over the four named roles with a fallback. */
  function NodeTypeString(n: NodeType): (s: string)
    ensures 0 <= n < |NodeTypeNames| ==> s == NodeTypeNames[n]
    ensures !(0 <= n < |NodeTypeNames|) ==> s == UnrecognizedNodeType
  {
    if n == Validator then "Validator"
    else if n == Full then "Full"
    else if n == LightClient then "LightClient"
    else if n == DHT then "DHT"
    else "unrecognized node type"
  }

  /** The display name identifies the role: two values with the same name are
      the same named role, or are both unrecognized. */
  lemma NodeTypeStringInjective(m: NodeType, n: NodeType)
    requires NodeTypeString(m) == NodeTypeString(n)
    ensures m == n || (NodeTypeString(n) == UnrecognizedNodeType && !(0 <= m < 4) && !(0 <= n < 4))
  {
  }

  /** One declared droplet (config.Droplet). `drop` holds the live droplet bound
      to it, or ZeroInstance while none is. */
  datatype Droplet = Droplet(
    location: string,
    size: string,
    nodeType: NodeType,
    payload: string,
    initCommands: seq<string>,
    peers: seq<string>,
    output: string,
    drop: Instance)

  /** The errors the fleet description reports itself. `ListFailed` carries an
      error of the droplet listing through unchanged. */
  datatype ConfigError =
    | NoDroplets
    | NoSSHKey
    | UndeclaredPeer(name: string, peer: string)
    | DropletNotFound(name: string)
    | ListFailed(cause: string)
  {
    /** The text of the Go error value. */
    function Message(): string
    {
      match this
      case NoDroplets => "no droplets configured"
      case NoSSHKey => "no ssh key finger print provided"
      case UndeclaredPeer(name, peer) => name + " has a peer, " + peer + ", who is not defined in the Config"
      case DropletNotFound(name) => "droplet not found in config: " + name
      case ListFailed(cause) => cause
    }
  }

  /** Referential integrity: every peer of every declared droplet is declared. */
  predicate PeersDeclared(droplets: map<string, Droplet>)
  {
    forall name, peer :: name in droplets && peer in droplets[name].peers ==> peer in droplets
  }

  /** The position of the first live droplet whose name is not declared, or
      the length of the list when every name is declared. */
  function FirstUndeclared(live: seq<Instance>, declared: set<string>): (k: nat)
    ensures k <= |live|
    ensures forall j :: 0 <= j < k ==> live[j].name in declared
    ensures k < |live| ==> live[k].name !in declared
  {
    if live == [] then 0
    else if live[0].name !in declared then 0
    else 1 + FirstUndeclared(live[1..], declared)
  }

  /** The declarations after binding the live droplets of `live` one after the
      other, each to the declaration of the same name. */
  function Bound(droplets: map<string, Droplet>, live: seq<Instance>): (r: map<string, Droplet>)
    requires forall j :: 0 <= j < |live| ==> live[j].name in droplets
    ensures r.Keys == droplets.Keys
  {
    if live == [] then droplets
    else
      var last := live[|live| - 1];
      var prev := Bound(droplets, live[..|live| - 1]);
      prev[last.name := prev[last.name].(drop := last)]
  }

  /** The last live droplet of `live` called `name`, if any. */
  function LastNamed(live: seq<Instance>, name: string): Option<Instance>
  {
    if live == [] then None
    else if live[|live| - 1].name == name then Some(live[|live| - 1])
    else LastNamed(live[..|live| - 1], name)
  }

  /** What binding does to one declaration: only its `drop` field changes, and
      it changes to the last live droplet of that name (the last one wins);
      a declaration no live droplet names is left as it was. */
  lemma {:induction false} BoundEntry(droplets: map<string, Droplet>, live: seq<Instance>, name: string)
    requires forall j :: 0 <= j < |live| ==> live[j].name in droplets
    requires name in droplets
    ensures LastNamed(live, name).None? ==> Bound(droplets, live)[name] == droplets[name]
    ensures LastNamed(live, name).Some? ==> Bound(droplets, live)[name] == droplets[name].(drop := LastNamed(live, name).value)
    ensures Bound(droplets, live)[name].(drop := droplets[name].drop) == droplets[name]
  {
    if live != [] {
      BoundEntry(droplets, live[..|live| - 1], name);
    }
  }

  /** The payload directories named by the declarations, each once. */
  function PayloadDirs(droplets: map<string, Droplet>): set<string>
  {
    set name | name in droplets :: droplets[name].payload
  }

  /** Every declaration's bound droplet has a public address. */
  predicate AllResolve(droplets: map<string, Droplet>, publicIPv4: Instance -> Result<string, string>)
  {
    forall name :: name in droplets ==> publicIPv4(droplets[name].drop).Success?
  }

  /** The name-to-address table, when every address resolves. */
  function ResolvedIPs(droplets: map<string, Droplet>, publicIPv4: Instance -> Result<string, string>): map<string, string>
    requires AllResolve(droplets, publicIPv4)
  {
    map name | name in droplets :: publicIPv4(droplets[name].drop).value
  }

  /** The file `fileName` inside directory `dir` ("%s/%s"). */
  function PayloadFile(dir: string, fileName: string): string
  {
    dir + "/" + fileName
  }

  /** The deployment description. The Go value shares its droplet map with every
      copy of it, so an update through one copy is seen through all of them;
      here that shared map is the field of one object. */
  class Config {
    var droplets: map<string, Droplet>
    /** The fingerprint of the SSH key preloaded at the provider. */
    var sshKeyID: string
    /** The tag that marks the droplets of this deployment. */
    var tag: string

    constructor (droplets: map<string, Droplet>, sshKeyID: string, tag: string)
      ensures this.droplets == droplets && this.sshKeyID == sshKeyID && this.tag == tag
    {
      this.droplets := droplets;
      this.sshKeyID := sshKeyID;
      this.tag := tag;
    }

    /** ValidateBasic: rejects an empty fleet, a missing key fingerprint and a
        peer that is not declared. The map is visited in an unspecified order,
        so which undeclared peer is reported is not determined. */
    method ValidateBasic() returns (err: Option<ConfigError>)
      ensures err == None <==> |droplets| > 0 && sshKeyID != "" && PeersDeclared(droplets)
      ensures |droplets| == 0 ==> err == Some(NoDroplets)
      ensures |droplets| > 0 && sshKeyID == "" ==> err == Some(NoSSHKey)
      ensures err.Some? && !err.value.NoDroplets? && !err.value.NoSSHKey? ==>
        && err.value.UndeclaredPeer?
        && err.value.name in droplets
        && err.value.peer in droplets[err.value.name].peers
        && err.value.peer !in droplets
    {
      if |droplets| == 0 {
        return Some(NoDroplets);
      }
      if |sshKeyID| == 0 {
        return Some(NoSSHKey);
      }
      var unvisited := droplets.Keys;
      while unvisited != {}
        invariant unvisited <= droplets.Keys
        invariant forall name, peer :: name in droplets && name !in unvisited && peer in droplets[name].peers ==> peer in droplets
        decreases unvisited
      {
        var name :| name in unvisited;
        var peers := droplets[name].peers;
        for i := 0 to |peers|
          invariant forall k :: 0 <= k < i ==> peers[k] in droplets
        {
          if peers[i] !in droplets {
            return Some(UndeclaredPeer(name, peers[i]));
          }
        }
        unvisited := unvisited - {name};
      }
      return None;
    }

    /** Match: filters the listed live droplets by the fleet tag and binds each,
        in list order, to the declaration of the same name, stopping at the
        first live droplet that is not declared. Bindings made before that
        point stay in the shared map. `listed` is the outcome of the droplet
        listing. */
    method Match(listed: Result<seq<Instance>, string>) returns (err: Option<ConfigError>)
      modifies this`droplets
      ensures listed.Failure? ==> err == Some(ListFailed(listed.error)) && droplets == old(droplets)
      ensures listed.Success? ==>
        var live := Tagged(listed.value, tag);
        var k := FirstUndeclared(live, old(droplets).Keys);
        && droplets == Bound(old(droplets), live[..k])
        && (err == None <==> k == |live|)
        && (k < |live| ==> err == Some(DropletNotFound(live[k].name)))
    {
      if listed.Failure? {
        return Some(ListFailed(listed.error));
      }
      // FilterDrops never reports an error, so its error result is not consulted.
      var drops, _ := FilterDrops(listed.value, tag);
      ghost var declared := droplets;
      for i := 0 to |drops|
        invariant droplets.Keys == declared.Keys
        invariant forall j :: 0 <= j < i ==> drops[j].name in declared
        invariant droplets == Bound(declared, drops[..i])
      {
        var drop := drops[i];
        if drop.name !in droplets {
          assert FirstUndeclared(drops, declared.Keys) == i;
          return Some(DropletNotFound(drop.name));
        }
        var confDrop := droplets[drop.name];
        droplets := droplets[drop.name := confDrop.(drop := drop)];
        assert drops[..i + 1][..i] == drops[..i];
      }
      assert drops[..|drops|] == drops;
      assert FirstUndeclared(drops, declared.Keys) == |drops|;
      return None;
    }

    /** exportIPs: the public address of every declaration's bound droplet,
        by name; the first lookup that fails aborts with its error. */
    method ExportIPs(publicIPv4: Instance -> Result<string, string>) returns (r: Result<map<string, string>, string>)
      ensures r.Success? <==> AllResolve(droplets, publicIPv4)
      ensures r.Success? ==> r.value.Keys == droplets.Keys
      ensures r.Success? ==> forall name :: name in droplets ==> r.value[name] == publicIPv4(droplets[name].drop).value
      ensures r.Failure? ==> exists name :: name in droplets && publicIPv4(droplets[name].drop) == Failure(r.error)
    {
      var out: map<string, string> := map[];
      var unvisited := droplets.Keys;
      while unvisited != {}
        invariant unvisited <= droplets.Keys
        invariant out.Keys == droplets.Keys - unvisited
        invariant forall name :: name in out ==> publicIPv4(droplets[name].drop) == Success(out[name])
        decreases unvisited
      {
        var name :| name in unvisited;
        var ipv4 := publicIPv4(droplets[name].drop);
        if ipv4.Failure? {
          return Failure(ipv4.error);
        }
        out := out[name := ipv4.value];
        unvisited := unvisited - {name};
      }
      return Success(out);
    }

    /** The set of distinct payload directories, collected by a loop over the
        declarations. */
    method UniquePayloadPaths() returns (dirs: set<string>)
      ensures forall dir :: dir in dirs <==> exists name :: name in droplets && droplets[name].payload == dir
    {
      dirs := {};
      var unvisited := droplets.Keys;
      while unvisited != {}
        invariant unvisited <= droplets.Keys
        invariant forall dir :: dir in dirs <==> exists name :: name in droplets && name !in unvisited && droplets[name].payload == dir
        decreases unvisited
      {
        var name :| name in unvisited;
        dirs := dirs + {droplets[name].payload};
        unvisited := unvisited - {name};
      }
    }

    /** Writes `content` to `fileName` once in each distinct payload directory,
        in an unspecified order, stopping at the first write that fails.
        `attempted` lists the directories written to, in order. */
    method WriteToPayloadDirs(fileName: string, content: map<string, string>,
                              writeFile: (string, map<string, string>) -> Option<string>)
      returns (err: Option<string>, attempted: seq<string>)
      ensures NoDuplicates(attempted)
      ensures forall i :: 0 <= i < |attempted| ==> attempted[i] in PayloadDirs(droplets)
      ensures forall i :: 0 <= i < |attempted| - 1 ==> writeFile(PayloadFile(attempted[i], fileName), content) == None
      ensures err == None <==> forall dir :: dir in PayloadDirs(droplets) ==> writeFile(PayloadFile(dir, fileName), content) == None
      ensures err == None ==> forall dir :: dir in PayloadDirs(droplets) <==> dir in attempted
      ensures err != None ==> attempted != [] && writeFile(PayloadFile(attempted[|attempted| - 1], fileName), content) == err
    {
      var dirs := UniquePayloadPaths();
      assert dirs == PayloadDirs(droplets);
      attempted := [];
      var remaining := dirs;
      while remaining != {}
        invariant remaining <= dirs
        invariant forall dir :: dir in attempted <==> dir in dirs && dir !in remaining
        invariant NoDuplicates(attempted)
        invariant forall dir :: dir in attempted ==> writeFile(PayloadFile(dir, fileName), content) == None
        decreases remaining
      {
        var dir :| dir in remaining;
        attempted := attempted + [dir];
        var e := writeFile(PayloadFile(dir, fileName), content);
        if e != None {
          return e, attempted;
        }
        remaining := remaining - {dir};
      }
      return None, attempted;
    }

    /** WriteIPsJson: exports the address table and writes it, as
        public_ipv4s.json, once into every distinct payload directory. */
    method WriteIPsJson(publicIPv4: Instance -> Result<string, string>,
                        writeFile: (string, map<string, string>) -> Option<string>)
      returns (err: Option<string>, attempted: seq<string>)
      ensures !AllResolve(droplets, publicIPv4) ==>
        && attempted == []
        && err.Some?
        && exists name :: name in droplets && publicIPv4(droplets[name].drop) == Failure(err.value)
      ensures AllResolve(droplets, publicIPv4) ==>
        (err == None <==> forall dir :: dir in PayloadDirs(droplets) ==>
                            writeFile(PayloadFile(dir, "public_ipv4s.json"), ResolvedIPs(droplets, publicIPv4)) == None)
      ensures NoDuplicates(attempted)
      ensures forall i :: 0 <= i < |attempted| ==> attempted[i] in PayloadDirs(droplets)
      ensures forall i :: 0 <= i < |attempted| - 1 ==>
        writeFile(PayloadFile(attempted[i], "public_ipv4s.json"), ResolvedIPs(droplets, publicIPv4)) == None
      ensures err == None ==> forall dir :: dir in PayloadDirs(droplets) <==> dir in attempted
      ensures AllResolve(droplets, publicIPv4) && err != None ==>
        && attempted != []
        && writeFile(PayloadFile(attempted[|attempted| - 1], "public_ipv4s.json"), ResolvedIPs(droplets, publicIPv4)) == err
    {
      var ips := ExportIPs(publicIPv4);
      if ips.Failure? {
        return Some(ips.error), [];
      }
      assert ips.value == ResolvedIPs(droplets, publicIPv4);
      err, attempted := WriteToPayloadDirs("public_ipv4s.json", ips.value, writeFile);
    }

    /** WriteIPsBash: exports the address table and writes it, as the shell
        script public_ipv4s.sh, once into every distinct payload directory. */
    method WriteIPsBash(publicIPv4: Instance -> Result<string, string>,
                        writeFile: (string, map<string, string>) -> Option<string>)
      returns (err: Option<string>, attempted: seq<string>)
      ensures !AllResolve(droplets, publicIPv4) ==>
        && attempted == []
        && err.Some?
        && exists name :: name in droplets && publicIPv4(droplets[name].drop) == Failure(err.value)
      ensures AllResolve(droplets, publicIPv4) ==>
        (err == None <==> forall dir :: dir in PayloadDirs(droplets) ==>
                            writeFile(PayloadFile(dir, "public_ipv4s.sh"), ResolvedIPs(droplets, publicIPv4)) == None)
      ensures NoDuplicates(attempted)
      ensures forall i :: 0 <= i < |attempted| ==> attempted[i] in PayloadDirs(droplets)
      ensures forall i :: 0 <= i < |attempted| - 1 ==>
        writeFile(PayloadFile(attempted[i], "public_ipv4s.sh"), ResolvedIPs(droplets, publicIPv4)) == None
      ensures err == None ==> forall dir :: dir in PayloadDirs(droplets) <==> dir in attempted
      ensures AllResolve(droplets, publicIPv4) && err != None ==>
        && attempted != []
        && writeFile(PayloadFile(attempted[|attempted| - 1], "public_ipv4s.sh"), ResolvedIPs(droplets, publicIPv4)) == err
    {
      var ips := ExportIPs(publicIPv4);
      if ips.Failure? {
        return Some(ips.error), [];
      }
      assert ips.value == ResolvedIPs(droplets, publicIPv4);
      err, attempted := WriteToPayloadDirs("public_ipv4s.sh", ips.value, writeFile);
    }
  }
}
