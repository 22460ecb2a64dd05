# AstralWfp rule compiler and controller, modelled in Dafny

AstralWfp turns declarative firewall rules (`FilterRule`: name, application
path, local/remote address, local/remote CIDR network, ports, protocol,
direction, allow/block) into Windows Filtering Platform filters, one per
selected ALE layer, and keeps the ids of the filters it installed so that it
can remove them again. This project models the core of `src/astral_wfp.rs`:

- `text.dfy` (module `Text`): Rust's `str::split(char)`, decimal digit
  strings and `u8::from_str`, which the CIDR parser relies on.
- `ip_addr.dfy` (module `IpAddress`): `IpAddr`, and Rust's reading of
  dotted-quad IPv4 text. IPv6 text is read by a parser passed in as a
  parameter (`parseV6`).
- `ip_network.dfy` (module `Network`): `IpNetwork::from_cidr`, with its
  four error outcomes, and the CIDR texts used by the tests and the driver.
- `filter_rule.dfy` (module `Rule`): the rule, `FilterRule::new` and every
  builder step, including the two fallible CIDR steps.
- `layers.dfy` (module `Layers`): `get_layers_for_rule`.
- `descriptor.dfy` (module `Descriptor`): the action codes and the filter
  handed to the engine for one rule at one layer.
- `controller.dfy` (module `Controller`): `WfpController` as a class with
  the fields `engineHandle` and `filterIds`, and its methods `Initialize`,
  `AddAdvancedFilters` and `Cleanup`, with the engine as oracles.
- `wrappers.dfy`, `ints.dfy`: `Option`/`Result` and Rust's unsigned
  integer widths.

The model follows the code, including where the code does less than one
might expect or than its own comments promise:

- `from_cidr` stores `ip` exactly as written, host bits included, so
  "10.126.126.1/12" keeps 10.126.126.1 (`Network.HostBitsKeptExample`).
- The comment at src/astral_wfp.rs:449 says that a rule without an IP type
  gets both IPv4 and IPv6 layers. That branch runs only when the first
  `match` of `get_layers_for_rule` pushed nothing, and that `match` always
  pushes at least one layer. A rule without an address is therefore
  installed for IPv4 only (`Layers.NoAddressMeansIpv4Only`), and the layers
  never depend on the CIDR network fields (`Layers.LayersIgnoreNetworks`).
- The doc comment of `add_advanced_filters` (src/astral_wfp.rs:384-386) says
  it returns `Ok` if all filters are added and `Err` if adding fails. The
  code (src/astral_wfp.rs:402-411) returns `Ok` as soon as one filter was
  added, so a partly refused batch is `Ok` (`Controller.PartialBatchSucceeds`),
  and it returns `Err` for an empty batch, in which nothing failed
  (`Controller.EmptyBatchFails`).
- The module comment at src/astral_wfp.rs:5-8 promises application, port and
  protocol filtering. Every filter is submitted with zero conditions, so the
  rule's application path, address values, networks, ports and protocol
  never reach the engine (`Descriptor.DescriptorIgnoresMatchFields`); only
  the address family picks the layers (`Layers.LayersForRule`).

## Model

| member | source | states |
|---|---|---|
| `Text.Split` | src/astral_wfp.rs:54 | `cidr.split('/')` yields one piece more than there are separators, and no piece contains the separator |
| `Text.JoinSplit` | src/astral_wfp.rs:54 | splitting loses nothing: joining the pieces with the separator gives back the text |
| `Text.SplitJoin` | src/astral_wfp.rs:54-55 | separator-free pieces joined and split again come back unchanged |
| `Text.ParseU8` | src/astral_wfp.rs:60 | `parts[1].parse::<u8>()` accepts only an optional leading '+' followed by digits |
| `Text.ParseU8LeadingZero` | src/astral_wfp.rs:60 | leading zeros are accepted: a '0' in front of a digit string reads the same |
| `Text.ParseU8Plus` | src/astral_wfp.rs:60 | one leading '+' is accepted and changes nothing; a second '+' is refused |
| `Text.ParseU8OfDecimal` | src/astral_wfp.rs:60 | the prefix parse accepts the decimal text of `n` exactly when `n` fits in a `u8`, and then yields `n` |
| `IpAddress.ParseFormatIpv4` | src/astral_wfp.rs:59 | every IPv4 address is read back from its dotted-quad text |
| `IpAddress.FormatParseIpv4` | src/astral_wfp.rs:59 | the only text read as an IPv4 address is that address's own dotted-quad text |
| `IpAddress.ParseIpv4` | src/astral_wfp.rs:59 | accepted IPv4 text has exactly three dots and 7 to 15 characters (four groups of one to three digits) |
| `IpAddress.ParseIpAddr` | src/astral_wfp.rs:59 | `parse::<IpAddr>()` reads IPv4 first: when the text is IPv4 the result is that address; an IPv6 result is the IPv6 reader's answer on non-IPv4 text; it fails exactly when both readings fail |
| `IpAddress.ParseIpAddrOfFormat` | src/astral_wfp.rs:59 | every dotted-quad text reads as its IPv4 address, whatever the IPv6 reader does |
| `Network.MaxPrefix` | src/astral_wfp.rs:63-66 | the longest prefix is 32 for IPv4 and 128 for IPv6 |
| `Network.FromCidr` | src/astral_wfp.rs:53-73 | every accepted network has a prefix within its family's width; text without exactly one '/' is refused as invalid format |
| `Network.FromCidrOfParts` | src/astral_wfp.rs:54-72 | on `address/prefix` text: an unreadable address fails first, then an unreadable prefix, then a too-long one; otherwise address and prefix are stored unchanged |
| `Network.FromCidrSuccess` | src/astral_wfp.rs:54-72 | accepted text is two pieces around one '/', and the network holds exactly what the two pieces read as |
| `Network.FromCidrIpv4Text` | src/astral_wfp.rs:59-72 | for every IPv4 address and decimal prefix: accepted up to 32, refused as too large from 33 to 255, refused as no `u8` from 256 |
| `Network.FromCidrIpv6Text` | src/astral_wfp.rs:59-72 | for every slash-free text that is no IPv4 text and that the IPv6 reader accepts, and every decimal prefix: accepted up to 128, refused as too large from 129 to 255, refused as no `u8` from 256 |
| `Network.NoSlashRefused` | src/astral_wfp.rs:54-57 | any text without a '/' is refused as invalid format, before the address is read |
| `Network.Ipv4NetworkExample` | src/test.rs:28-31 | "192.168.0.0/24" is accepted with prefix 24 |
| `Network.Ipv6NetworkExample` | src/test.rs:34-37 | "2001:db8::/32" is accepted with prefix 32 when the IPv6 reader accepts the address |
| `Network.NoSlashExample` | src/test.rs:41 | "192.168.0.0" is refused as invalid format |
| `Network.TwoSlashesExample` | src/astral_wfp.rs:55-57 | "a/b/c" is refused as invalid format |
| `Network.PrefixTooLargeExample` | src/test.rs:42 | "192.168.0.0/33" is refused as a prefix too large for IPv4 |
| `Network.PrefixNotU8Example` | src/astral_wfp.rs:60 | "192.168.0.0/300" is refused as an unreadable prefix, not as a too-large one |
| `Network.HostBitsKeptExample` | src/main.rs:30 | "10.126.126.1/12" stores 10.126.126.1: host bits are not cleared |
| `Rule.OnlyChangedDetermines` | src/astral_wfp.rs:152-222 | a rule is fixed by the rule it came from, the one changed field and that field's value, so each builder contract below fixes its result |
| `Rule.NewRule` | src/astral_wfp.rs:136-150 | the new rule has the name, every optional field empty, direction Both and action Block |
| `Rule.WithAppPath` | src/astral_wfp.rs:153-156 | sets the application path and changes no other field |
| `Rule.WithLocalIp` | src/astral_wfp.rs:159-162 | sets the local address and changes no other field |
| `Rule.WithRemoteIp` | src/astral_wfp.rs:165-168 | sets the remote address and changes no other field |
| `Rule.WithLocalIpNetwork` | src/astral_wfp.rs:171-174 | sets the local network and changes no other field |
| `Rule.WithRemoteIpNetwork` | src/astral_wfp.rs:177-180 | sets the remote network and changes no other field |
| `Rule.WithLocalIpCidr` | src/astral_wfp.rs:183-186 | fails with exactly the error of `from_cidr`; otherwise sets only the local network, to what `from_cidr` read |
| `Rule.WithRemoteIpCidr` | src/astral_wfp.rs:189-192 | fails with exactly the error of `from_cidr`; otherwise sets only the remote network, to what `from_cidr` read |
| `Rule.WithLocalPort` | src/astral_wfp.rs:195-198 | sets the local port and changes no other field |
| `Rule.WithRemotePort` | src/astral_wfp.rs:201-204 | sets the remote port and changes no other field |
| `Rule.WithProtocol` | src/astral_wfp.rs:207-210 | sets the protocol and changes no other field |
| `Rule.WithDirection` | src/astral_wfp.rs:213-216 | sets the direction and changes no other field |
| `Rule.WithAction` | src/astral_wfp.rs:219-222 | sets the action and changes no other field |
| `Rule.BuilderChainExample` | src/test.rs:48-62 | the builder chain of the test yields a rule with those values and no address fields |
| `Layers.DirectionLayers` | src/astral_wfp.rs:423-447 | the first `match` always yields at least one layer, so the branch at lines 450-467 is dead |
| `Layers.LayersForRule` | src/astral_wfp.rs:416-470 | two layers for Both, one otherwise; all IPv6 exactly when an address is IPv6, never mixed; the connect layer unless inbound only, then the accept layer |
| `Layers.NoAddressMeansIpv4Only` | src/astral_wfp.rs:420-467 | a rule without an address gets IPv4 layers only, never the both-families list |
| `Layers.LayersIgnoreNetworks` | src/astral_wfp.rs:420-421 | the CIDR network fields do not change the layers |
| `Layers.NewRuleLayers` | src/astral_wfp.rs:416-447 | a fresh rule (no address, direction Both, as `new` at lines 136-150 sets it) is installed at the IPv4 connect and accept layers |
| `Descriptor.ActionType` | src/astral_wfp.rs:29-30 | both action codes carry the terminating flag 0x1000; below it permit is 2 and block is 1 |
| `Descriptor.ActionTypeRoundTrip` | src/astral_wfp.rs:337-340 | the code of an action reads back as that action, so allow and block codes differ |
| `Descriptor.DescriptorFor` | src/astral_wfp.rs:314-356 | the filter carries the rule's name, the layer, the rule's action code and zero conditions |
| `Descriptor.DescriptorIgnoresMatchFields` | src/astral_wfp.rs:334-335 | two rules with the same name and action produce the same filter at a layer |
| `Controller.AttemptsPerRule` | src/astral_wfp.rs:391-393 | every rule is submitted at least once and at most twice |
| `Controller.InstalledCount` | src/astral_wfp.rs:394-397 | at most one id per submission; one for each when all are accepted; none when all are refused |
| `Controller.InstalledFromEngine` | src/astral_wfp.rs:394-395 | every recorded id is one the engine returned for one of the submissions |
| `Controller.InstalledIncludesAccepted` | src/astral_wfp.rs:394-396 | the id the engine returns for any accepted submission is recorded, so a batch with one accepted submission succeeds |
| `Controller.PartialBatchSucceeds` | src/astral_wfp.rs:384-411 | one accepted submission makes the batch succeed, even when the engine refuses the others; the doc comment promises `Ok` only when all are added |
| `Controller.EmptyBatchFails` | src/astral_wfp.rs:384-411 | an empty batch installs nothing and so is reported as an error, although no addition failed |
| `Controller.FailedDeletesExactly` | src/astral_wfp.rs:489-496 | the reported deletion failures are exactly the tracked ids the engine refuses to delete |
| `Controller.WfpController.constructor` | src/astral_wfp.rs:243-248 | a new controller has the default handle and no filter ids |
| `Controller.WfpController.Initialize` | src/astral_wfp.rs:255-294 | succeeds exactly when the engine opens a session, and then holds its handle; filter ids untouched |
| `Controller.WfpController.AddAdvancedFilters` | src/astral_wfp.rs:387-413 | earlier ids stay as a prefix, then the ids of accepted submissions in rule-then-layer order; fails exactly when none was accepted |
| `Controller.WfpController.Cleanup` | src/astral_wfp.rs:484-507 | submits every tracked id for deletion regardless of failures, reports the refused ones, leaves the ids in place, and fails exactly when closing fails |
| `Controller.InstallAndCleanup` | src/test.rs:67-95 | create, initialise, add, clean up, each `?` returning early: a refused open or a batch with nothing installed ends before cleanup, deleting and closing nothing; otherwise exactly the installed ids are submitted for deletion and the outcome is that of closing |

## Left out

- IPv6 text parsing: the standard library's IPv6 address reader is a parameter (`parseV6`), not modelled.
- The engine itself (`FwpmEngineOpen0`, `FwpmFilterAdd0`, `FwpmFilterDeleteById0`, `FwpmEngineClose0`) is replaced by oracles: the open result, `add`, `delete` and `close` functions. A deterministic oracle cannot express an engine whose answers depend on its history. In particular, two rules with the same name and action give identical filters (`Descriptor.DescriptorIgnoresMatchFields`), so the model's engine returns the same id for both: for `[NewRule("x"), NewRule("x")]` an oracle answering 7 and 8 at the two layers records `[7, 8, 7, 8]`, whereas the real engine gives every added filter its own id.
- Error codes: every controller failure is the single `EngineError`; the Win32 code and the String messages of `from_cidr` are reduced to the four `CidrError` cases.
- Console output (`println!`) of every operation, and `run`, which waits for a line on standard input.
- The filter weight and effective weight (`WEIGHT_VALUE`, `EFFECTIVE_WEIGHT_VALUE`): they are never changed and are passed to the engine as pointer values, an FFI detail.
- The filter description text, the filter key, flags, provider and sub-layer of `FWPM_FILTER0`: constants or display text with no effect on which traffic matches.
- `to_wide_string`: UTF-16 conversion for the foreign calls.
- `Descriptor.DescriptorFor`: its display name is the name the code means to pass, not one it guarantees. The UTF-16 name and description buffers (src/astral_wfp.rs:317-318) are temporaries dropped at the end of the `let filter` statement (src/astral_wfp.rs:356), before `FwpmFilterAdd0` reads them (src/astral_wfp.rs:363-368), so the engine reads freed memory. The name does not affect which traffic matches.
- `Controller.WfpController.AddAdvancedFilters`: `added_count` is a 32-bit integer in the source; the model counts with an unbounded natural number, which differs from 2^31 accepted filters on: there the source's counter overflows, which panics in a debug build, and in a release build wraps to a negative value, so `added_count > 0` is false and the call returns `Err`.
- `Controller.WfpController.Initialize`: on a refused open, the model keeps the old handle; what the foreign call writes into the handle on failure is not known.
- The GUI (`src/gui.rs`), the driver (`src/main.rs`) and the resource build step (`build.rs`) are not part of this model; `crate::nt::get_nt_path` is not part of this model either.
