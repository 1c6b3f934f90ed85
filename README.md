# Devnet fleet tooling: a Dafny model of its sequential core

This repository holds the tooling for a test network of validator nodes on
DigitalOcean droplets. The tooling declares a fleet in a JSON configuration
and reconciles it with the droplets that are actually running. It opens SSH
sessions to every node. It writes the fleet's public addresses into each
payload directory, and it edits node and IPFS configurations so that nodes
find each other. Most of the code calls cloud, SSH and CLI libraries. This
project models the deterministic logic between those calls:

- `digital_ocean.dfy` (module `DigitalOcean`) models the live droplet record
  and the tag filter (`FilterDrops`, `hasTag`). The filter is specified by the
  reference function `Tagged`.
- `config.dfy` (module `FleetConfig`) models the fleet configuration as a
  class whose `droplets` map the methods update in place. It covers:
  - `ValidateBasic` and `NodeType.String`;
  - the binding loop of `Match`, specified by `Bound` and `FirstUndeclared`;
  - the address export `exportIPs`;
  - the unique payload paths and the per-directory writes of `WriteIPsJson`
    and `WriteIPsBash`.
- `ssh.dfy` (module `Ssh`) covers:
  - the in-place rune reversal `reverse`;
  - the key loading dispatch of `signerFromPem` and `parsePemBlock`, with the
    PEM, x509 and ssh libraries as an oracle record `KeyLibrary`;
  - the session pool: `NewSSHManager`, `SSHManager.CloseAll` and
    `Connection.Close`. The client and the output file are objects that count
    their `Close` calls.
- `setup.dfy` (module `Setup`) models `addPersistentPeer` and the `addpeer`
  command. The peer list is a comma-separated string. `SplitCommas` follows
  Go's `strings.Split` on ",", and `Entries` counts an empty list as having
  no entries. The program never splits the list itself; the split only
  states what appending an entry means for the list's contents.
- `hydra.dfy` (module `Hydra`) models `hydraHeadsResp.IDs` and the
  bootstrap-list update of `AddHydraIDs`.
- `common.dfy` (module `Common`) holds the `Option`/`Result` types that stand
  for Go's `error` and `(T, error)` results.

Go ranges over maps in random order. The model turns most such loops into a
`while` loop that picks an arbitrary unvisited key, so their contracts hold
for every visiting order. `NewSSHManager` instead takes the visiting order as
an input, `order`, because its result depends on which connection fails
first. The model never executes any of this code.
The following are parameters of the model, not code in it:

- the outcomes of I/O: the droplet listing, `PublicIPv4`, `NewConnection`,
  the close calls, file reads and writes, and the HTTP request;
- the results of the crypto libraries.

## Model

| member | source | states |
|---|---|---|
| DigitalOcean.HasTag | config/digital_ocean.go:51-58 | The result is true exactly when the tag occurs in the tag list. |
| DigitalOcean.FilterDrops | config/digital_ocean.go:42-49 | The output is `Tagged(drops, tag)`: the tagged droplets in input order. The error is always nil, and an empty input gives an empty output. |
| DigitalOcean.TaggedIsSubsequence | config/digital_ocean.go:42-49 | The filter's output is an order-preserving subsequence of its input. |
| DigitalOcean.TaggedCarryTag | config/digital_ocean.go:44 | Every droplet in the output carries the tag. |
| DigitalOcean.TaggedMultiplicity | config/digital_ocean.go:43-47 | A droplet that carries the tag occurs in the output as often as in the input. Any other droplet does not occur in the output. |
| DigitalOcean.TaggedIdempotent | config/digital_ocean.go:43-47 | Filtering the output again by the same tag changes nothing. |
| FleetConfig.NodeTypeString | config/config.go:55-69 | Roles 0..3 display as "Validator", "Full", "LightClient" and "DHT". Every other value displays as "unrecognized node type". |
| FleetConfig.NodeTypeStringInjective | config/config.go:55-69 | Two roles with the same display name are equal, unless both are unrecognized values. |
| FleetConfig.Config.ValidateBasic | config/config.go:122-139 | No error exactly when the fleet is non-empty, the SSH key id is non-empty and every peer names a declared droplet. An empty fleet is reported before a missing key. A reported undeclared peer really is one, named with the droplet that lists it. |
| FleetConfig.FirstUndeclared | config/config.go:83-87 | Gives the index of the first live droplet whose name is not declared, or the list's length. Every droplet before that index is declared. |
| FleetConfig.Bound | config/config.go:83-92 | Binding live droplets to declarations keeps the key set of the declarations. |
| FleetConfig.BoundEntry | config/config.go:83-92 | A binding changes only the `drop` field of an entry, and takes the last live droplet of that name. An entry that no live droplet names is unchanged. |
| FleetConfig.Config.Match | config/config.go:71-93 | A failed listing returns its error and changes nothing. Otherwise the tag-filtered droplets are bound in list order up to the first undeclared name. That name's `DropletNotFound` error is returned, and the bindings made before it stay in the shared map. With no undeclared name, the result is nil and every live droplet is bound. |
| FleetConfig.Config.ExportIPs | config/config.go:207-217 | Succeeds exactly when every droplet's address lookup succeeds. The result then has the fleet's key set and each droplet's address. A failure carries the lookup error of some droplet. |
| FleetConfig.Config.UniquePayloadPaths | config/config.go:161-164 | The set of directories is exactly the set of payload values over all droplets. |
| FleetConfig.Config.WriteToPayloadDirs | config/config.go:165-170 | Each distinct payload directory is written at most once, and every write except the last attempted one succeeded. The result is nil exactly when every directory's write succeeds, and then every directory was written. Otherwise the result is the failing write's error. |
| FleetConfig.Config.WriteIPsJson | config/config.go:152-172 | A failed address lookup returns that lookup's error for some droplet, before any write. Otherwise the address table is written as public_ipv4s.json, at most once to each distinct payload directory and only to payload directories. Every write but the last attempted one succeeded. The result is nil exactly when all of those writes succeed, and then every directory was written. Otherwise it is the error of the last attempted write. |
| FleetConfig.Config.WriteIPsBash | config/config.go:174-205 | The same as WriteIPsJson, with the file public_ipv4s.sh: a lookup error before any write, otherwise writes to distinct payload directories that stop at the first failing write and return its error. |
| Ssh.ReversedLength | ssh.go:226-232 | Reversal keeps the rune count. |
| Ssh.ReversedIndex | ssh.go:228-230 | Position i of the reversal holds input rune n-1-i. |
| Ssh.ReversedInvolution | ssh.go:226-232 | Reversing twice gives back the input. |
| Ssh.Reverse | ssh.go:226-232 | The two-pointer swap loop over the rune array produces the reversal. The loop invariant says the ends outside [i, j] are swapped and the middle is untouched. |
| Ssh.FamilyOf | ssh.go:199-221 | Exactly "RSA PRIVATE KEY", "EC PRIVATE KEY" and "DSA PRIVATE KEY" select a key family, each its own. |
| Ssh.FamilyOfBlockType | ssh.go:199-220 | Each family's type line selects that family. |
| Ssh.ParsePemBlock | ssh.go:198-224 | An unsupported key type error naming the type comes exactly for other type lines. A success is that family parser's result. A parse failure carries that parser's error. |
| Ssh.SignerFromPem | ssh.go:158-196 | No decodable block gives "no key found". An encrypted block gives the decryption error when decryption fails. Otherwise a parsePemBlock failure is returned as is, a failure to build the signer becomes `SignerFailed` with the library's error, and when parsing and signer construction both succeed the result is that signer. An unencrypted input gives exactly the plain parser's result on the whole input. |
| Ssh.PlainKeyIgnoresPassword | ssh.go:187-195 | For an unencrypted key the password does not affect the result. |
| Ssh.EncryptedSignerHasSupportedFamily | ssh.go:167-186 | A signer from an encrypted block always has one of the three supported type lines. |
| Ssh.Connection.Close | ssh.go:124-130 | The client is closed once. If that fails, its error is returned and the output file is not closed. Otherwise the output file is closed once and its result is returned. |
| Ssh.SSHManager.CloseEntry | ssh.go:38-39 | Closing one pool entry closes that entry's client, and its output only if the client closed cleanly. No other entry's handles are touched. |
| Ssh.SSHManager.CloseAll | ssh.go:37-48 | Every connection's client is closed exactly once, whatever earlier closes returned. Every output file is closed once if its client closed cleanly. A line "failure to close ssh session for <name>: <err>" is logged exactly for the connections whose close failed. |
| Ssh.FirstFailing | ssh.go:24-28 | Gives the position in the visiting order of the first connect that fails, or the order's length. Every connect before it succeeds. |
| Ssh.OpenInOrder | ssh.go:23-30 | The loop connects the names in the visiting order and stops at the first failure. It returns exactly the connections opened before that position: fresh, pairwise unshared, bound to their declarations and unclosed. |
| Ssh.NewSSHManager | ssh.go:22-34 | No error exactly when no connect in the visiting order fails. Then the pool has exactly the keys of `drops`, with fresh, unclosed connections. On a failure the result is no manager and the first failing connect's error. The connections opened for the names before it are returned as `leaked`, fresh and with no close calls: they are left open. |
| Setup.NatDecimalRoundTrip | setup/main.go:97 | The decimal rendering of a port is a non-empty digit string with no leading zero that reads back as the number. |
| Setup.DecimalHasNoComma | setup/main.go:97 | A rendered number contains no comma, so it cannot split a peer-list entry. |
| Setup.SplitCommasJoin | setup/main.go:102 | Joining two lists with a comma concatenates their entries. |
| Setup.AppendedEntries | setup/main.go:98-103 | Adding an entry without commas to a list yields the old entries followed by that entry. This holds for both the empty-list case and the comma case. |
| Setup.PeerAddressEntries | setup/main.go:96-104 | Adding a peer whose address has no comma adds exactly the "ip:port" entry and keeps every existing entry in place. |
| Setup.AppendedExtends | setup/main.go:96-104 | The old list is a prefix of the new one, and the new one ends with the added entry. |
| Setup.AddPersistentPeer | setup/main.go:96-104 | An empty list becomes "peer:port" with the port in decimal. A non-empty list becomes old + "," + "peer:port". No other field changes. |
| Setup.AddPeerCmd | setup/main.go:39-60 | A load error or an address-table error is returned with the config unchanged and not saved. A missing name gives "no public IP for <name> found", with the config unchanged and not saved. Otherwise "ip:26656" is added, the log format becomes "plain", the indexer settings are reset, the RPC address is kept and the config is saved. |
| Hydra.BootstrapAddressParts | das/hydra.go:80 | A bootstrap address is the listen address, then "/p2p/$", then the peer id. It starts with the address and ends with the id. |
| Hydra.BootstrapAddressInjective | das/hydra.go:80 | For a fixed id, different listen addresses give different bootstrap addresses. |
| Hydra.IDs | das/hydra.go:76-83 | The output has one element per address, in order. Element i is Addrs[i] + "/p2p/$" + ID with a literal "$", so it starts with Addrs[i] and ends with ID. |
| Hydra.AddHydraIDs | das/hydra.go:51-69 | A request or read failure is returned and nothing is written. Otherwise the written bootstrap list is the old list followed by the new addresses in order, the other settings are unchanged and the write's result is returned. |

## Left out

- DropletList (config/digital_ocean.go:9-39): paginated calls to the provider's API. Its result is the `listed` input of `Match`.
- PublicIPv4: the provider library's lookup. It is the `publicIPv4` function parameter.
- JSON, TOML and template work:
  - LoadConfig, WriteConfig and the marshalling in config/config.go;
  - the bash template's parse and execution;
  - loadLazyConfig, saveLazyConfig and readPubIPs in setup/main.go;
  - ReadConfigFile and WriteConfigFile in das/hydra.go.
  These are file I/O and library serialisers. The model sees their outcomes as inputs, or as the `writeFile` oracle.
- FleetConfig.Config.WriteIPsBash: the file is opened without truncation, and its close is deferred until the function returns. The model records only which directories are written and what each write reports.
- NewConnection, ssh.Dial, sessions, scp and the host-key callback in ssh.go: network and process I/O. A connection attempt is the `connect` oracle, and each handle's close outcome is fixed when it is opened.
- The PEM decoder, the x509 and ssh key parsers and the signer construction: foreign crypto code. They are fields of `KeyLibrary`.
- Ssh.KeyError.Message: Go's `%q` quoting is modelled as plain double quotes around the type. Escaping of special characters is not modelled.
- Ssh.Reverse: works on a sequence of runes. The UTF-8 decoding of `[]rune(s)` and the re-encoding of `string(runes)` are not modelled.
- log.Println in CloseAll and fmt.Println in IDs: output only. CloseAll's log lines are returned as the `logged` map.
- The command wiring and concurrency of main.go: cobra commands, password prompts and the goroutine fan-out. Also DeliverPayload, Run and the other commands there. main.go calls a `WriteIPs` method that config/config.go does not define; this model follows config/config.go.
- Ssh.NewSSHManager: returns at the first failed connect (ssh.go:26-28) and does not close the connections opened before it. The model follows the code and returns them as `leaked`; nothing ever closes them.
- das/sampling.go, das/main.go, pulumi/main.go and setup/setup_test.go: network sampling, timing, infrastructure code and library tests.
- The remaining fields of the node and IPFS configurations: only the fields the core reads or writes are modelled. The other IPFS settings are carried as an opaque `rest` map.
