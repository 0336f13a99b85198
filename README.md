# nixos-ami-upload, modelled in Dafny

`nixos-ami-upload` publishes a NixOS disk image as an Amazon machine image (AMI) in
several regions. It reads the build metadata and checks that the system is
`x86_64-linux` and that the disk is a raw image. It then resolves the target regions
from `--regions`: either an explicit comma-separated list, or `all`, which reads the
compute service's regions from the parameter directory page by page.

In the home region it:
- uploads the image as a snapshot and waits for it;
- sizes the root volume in whole GiB;
- registers the image with a fixed five-slot device layout;
- tags the image with its derived `NixOSName`.

It then copies the image into every other region and prints the map from region name
to image id.

The model covers this core of `src/main.rs`:
- the region selection and the `resolve_all_regions` pagination loop;
- the size, name, description, tag and request derivations;
- the publish and fan-out sequence that builds the output map;
- the two exact-string validators.

Every remote call is an oracle. `Publish.Environment` supplies one response per call.
The rusoto region table is modelled by two inputs:
- `Region::from_str` is a partial function `parse: string -> Option<Region>`;
- `Region::default()` is a given `defaultRegion`.

Methods that talk to the provider also return the calls they make, in order. Each call
records the region whose client sends it, so properties such as "an unsupported system
makes no remote call" or "every tag targets the home image" can be stated.

Files:
- `wrappers.dfy`: `Option` and `Result`.
- `strings.dfy`: `str::split` on one character, with its rejoin lemmas.
- `aws.dfy`: regions, listing pages, request bodies, calls and failures.
- `cli.dfy`: `OutputFormat::from_str` and the system check.
- `image.dfy`: root size, `as i64`, names, description, device layout, request bodies.
- `regions.dfy`: region selection, page parsing, the discovery loop and its specification.
- `publish.dfy`: the home publish, the fan-out loop and the whole run.

In these places the model follows the code, where a reader might expect otherwise:
- A failed copy (`expect`), an id-less copy (`unwrap`) or a failed tag (`?`) aborts
  the run. Replica failures are not skipped.
- Inside the fan-out, the tag goes to the home image id (`init_ami_id`), not to the
  copy. It is sent through the copy region's client.
- The `all` sentinel is looked for in the first token only, so `all,xyz` takes the
  discovery path.
- An explicit list is not deduplicated. Copies to a repeated region happen once per
  occurrence, and the last copy's id wins in the map.
- An empty `--regions` splits into the single token `""`. That token must parse like
  any other, so there is no separate "no regions" error. The emptiness check in the
  source can never fire.
- The ambient default region is the home region only in the `all` case. An explicit
  list always uses its first token.

## Model

| member | source | states |
|---|---|---|
| Cli.ParseOutputFormat | src/main.rs:58-66 | accepts exactly "json"; any other string is refused with the message `invalid format '<s>'; must be 'json'` |
| Cli.FormatRoundTrip | src/main.rs:53-66 | every output format's spelling parses back to that format |
| Cli.FormatErrorQuotesInput | src/main.rs:63 | the refusal message contains the refused string at a fixed offset, so it determines the input |
| Cli.CheckSystem | src/main.rs:132-136 | succeeds iff the system is exactly "x86_64-linux"; otherwise fails naming the system |
| Strings.Split | src/main.rs:148 | splitting never yields an empty list, and no piece contains the separator |
| Strings.JoinSplit | src/main.rs:148 | the pieces rejoined with the separator give back the input |
| Strings.SplitJoin | src/main.rs:148 | separator-free pieces, joined and split again, come back unchanged |
| Strings.SplitPiece | src/main.rs:148 | a separator-free prefix followed by the separator is split off as the first piece |
| Strings.SplitWhole | src/main.rs:148 | a string without the separator is one piece |
| Strings.SplitHead | src/main.rs:148 | the first piece is a prefix that ends at the input's end or at a separator |
| Regions.SentinelOnlyInFirstToken | src/main.rs:148-158 | the first token is "all" iff the argument is "all" or starts with "all,", whatever follows |
| Regions.ParseAll | src/main.rs:161-167 | all-or-nothing parse: Ok iff every token parses; then the regions are the tokens' parses, in order; otherwise it fails on the first token that does not parse |
| Regions.Without | src/main.rs:173-176 | the home is removed; every other region is kept, with its number of occurrences, and nothing else is present |
| Regions.WithoutAppend | src/main.rs:173-176 | the filter keeps order: it distributes over concatenation |
| Regions.ParseParameters | src/main.rs:339-347 | Ok iff every parameter has a value that parses, with the parsed regions in order; otherwise the first bad parameter decides the failure (panic on a missing value, invalid region otherwise) |
| Regions.ParsePage | src/main.rs:339-347 | a page without a parameter list panics; otherwise its parameters are parsed |
| Regions.Discover | src/main.rs:326-355 | the reference definition of `resolve_all_regions`, one response at a time: a failed request or an unparsable page is the failure, a page without a token ends with its regions, any other page's regions come before the rest; success implies the first response was a parsable page whose regions lead the result |
| Regions.FirstStop | src/main.rs:330-354 | the index of the first response that fails, does not parse or carries no token |
| Regions.DiscoverIsConcatenation | src/main.rs:326-355 | discovery succeeds iff the stopping response is a parsable last page; then it is the in-order concatenation of every page's regions up to it; otherwise it is that response's failure, with nothing kept |
| Regions.GatheredCount | src/main.rs:339-348 | the discovered list has one region per parameter of the pages read |
| Regions.ListingCalls | src/main.rs:327-337 | the i-th listing request goes through the default region's client to the regions path, with no token first and then the previous page's token |
| Regions.ResolveAllRegions | src/main.rs:326-355 | the loop's result is the discovery specification, and it makes exactly one request per page up to and including the stopping one |
| Regions.Resolve | src/main.rs:157-176 | the copy regions never contain the home and are exactly the resolved regions other than the home, each with its number of occurrences, in the resolved order (`Without`, whose order `WithoutAppend` fixes) |
| Regions.ResolveSentinel | src/main.rs:157-159 | with "all" first: the home is the default region, and the selection succeeds or fails exactly as discovery does, with the same list |
| Regions.ResolveExplicit | src/main.rs:160-170 | with an explicit list: Ok iff every token parses; the list is then the tokens' parses in order and the home is its first element; otherwise an invalid-region failure names a token that does not parse |
| Regions.TwoExplicitRegions | src/main.rs:148-176 | "a,b" with two known, distinct regions gives home a, resolved [a, b], copies [b] |
| Regions.SelectionCalls | src/main.rs:158-167 | region selection's calls are listing requests only, through the default region's client to the regions path: exactly the listing calls up to the stopping response for "all", none for an explicit list |
| Regions.ResolveRegions | src/main.rs:147-176 | the mutable `initial_region` version equals the selection specification, and its calls are exactly `SelectionCalls` |
| Image.RootSize | src/main.rs:201-208 | an override is used unchanged; without one, it panics exactly when bytes + 2^30 overflows u64 |
| Image.RootSizeIsCeiling | src/main.rs:204-206 | the computed size is the ceiling of bytes / 2^30: r·2^30 ≥ bytes, and (r−1)·2^30 < bytes when bytes > 0 |
| Image.RootSizeOfWholeGiB | src/main.rs:204-206 | n whole GiB need exactly n GiB |
| Image.RootSizeRoundsUp | src/main.rs:204-206 | any remainder costs exactly one GiB more than the quotient |
| Image.RootSizeScenarios | src/main.rs:204-206 | 5 GiB gives 5; 5 GiB + 1 byte gives 6 |
| Image.AsI64 | src/main.rs:230 | `as i64` keeps the value modulo 2^64 within the i64 range and is the identity below 2^63 |
| Image.ComputedSizeFitsI64 | src/main.rs:201-208 | a size computed from the image survives the i64 cast unchanged |
| Image.NixosName | src/main.rs:212 | "NixOS-", the label, "-", the system, at the stated positions |
| Image.NixosNameInjective | src/main.rs:212 | for one system, distinct labels give distinct names |
| Image.AmiName | src/main.rs:213 | a supplied name replaces the derived one; otherwise the derived name |
| Image.Description | src/main.rs:220 | "NixOS ", the label, " ", the system, at the stated positions |
| Image.BlockDeviceMappings | src/main.rs:222-255 | five slots: a gp3 root on /dev/xvda from the snapshot, deleted on termination and sized by the i64 cast, then /dev/sdb../dev/sde named ephemeral0..ephemeral3 without volumes |
| Image.DeviceLayoutWellFormed | src/main.rs:222-255 | device names are distinct, and a slot has a volume iff it is the root device |
| Image.RegisterRequest | src/main.rs:214-257 | name, x86_64, ENA, HVM, the description, and a root device name equal to the first slot's device, which is backed by the snapshot |
| Image.NameTag | src/main.rs:262-271 | one resource (the image id) and one tag, NixOSName = the derived name |
| Image.CopyRequest | src/main.rs:291-296 | the copy names the source image id, the source region's name and the display name |
| Publish.NamesExclude | src/main.rs:279-301 | a region absent from the copy list has no key among the copy names, so the home entry is never overwritten |
| Publish.HomeCalls | src/main.rs:188-271 | the home publish's calls, all through the home client: upload first, then the wait on the uploaded snapshot, then the register request with the display name, the snapshot and the size, then the name tag on the registered id; all four when the publish succeeds; no copy and no listing |
| Publish.PublishHome | src/main.rs:188-271 | Ok iff upload, wait, sizing, registration (with id) and tagging all succeed, and then it is the registered id; at the first failing step: a failed upload or wait is that request's error, a size overflow panics, a failed registration panics with "could not register ami", an id-less one panics on `unwrap`, and a failed tagging is the `CreateTags` error, so every failure is `HomeFailure`; the calls made are exactly `HomeCalls` |
| Publish.HomeCallsTraced | src/main.rs:214-271 | the home publish tags only the registered image, with the derived name |
| Publish.FanOutTraced | src/main.rs:288-312 | fan-out calls tag and copy only the registered home image, under the derived and display names |
| Publish.NamesExactly | src/main.rs:279-301 | a name is among `Names(regions)` iff some listed region has it |
| Publish.FanOutCalls | src/main.rs:288-314 | the fan-out's calls from step i on: for each copy region, through that region's client, the copy of the home image under the display name, then (once the copy returned an id) the name tag on the home image; nothing after the first failing step; every call is a copy of the home image or a name tag on it, through a copy region's client |
| Publish.TraceStep | src/main.rs:288-314 | when copy step i succeeds, the fan-out's trace from step i is that region's copy, then its tag, then the trace from step i + 1 |
| Publish.CopyingFails | src/main.rs:288-314 | when step i of the fan-out fails, that is its first failure, the fan-out does not succeed, and the calls end with that step's copy (and its tag when the copy returned) |
| Publish.HomeFailure | src/main.rs:188-271 | the home publish's failure panics exactly when upload and wait went through and then the size overflowed or the registration failed or carried no id; a failed upload, wait or tagging is returned as that request's error |
| Publish.StepFailure | src/main.rs:297-312 | a fan-out step fails with a panic exactly when the copy failed (`expect`) or returned no id (`unwrap`); otherwise with the tagging's `?` error |
| Publish.RecordStep | src/main.rs:299-301 | recording one copy's id extends the recorded map by that region, and later copies win |
| Publish.FanOut | src/main.rs:284-317 | Ok iff every copy returns an id and every tagging succeeds; then the map is the input plus every copy region's name, mapped to its last copy's id; otherwise the failure is `StepFailure` of the first failing step; the calls are exactly `FanOutCalls` from step 0 |
| Publish.RunCalls | src/main.rs:132-317 | the whole run's calls: none after a refused system or disk, then the selection's listing calls, then the home publish's calls once a selection exists, then the fan-out's calls once the home image is tagged; no upload without a selection, no copy without a successful home publish, and every tag and copy targets the registered home image |
| Publish.Run | src/main.rs:106-324 | an unsupported system or a bad disk aborts with no remote call; the calls made are exactly `RunCalls`; Ok iff resolution, the home publish and the whole fan-out succeed; then the keys are the home's and the copy regions' names, the home maps to the registered id and each copy region to its last copy's id; a failure is the first failing stage's: `UnsupportedSystem`, `InvalidDiskImage` with the header error, the selection's error, `HomeFailure`, or `StepFailure` of the first failing fan-out step |

## Left out

- The AWS SDK calls (snapshot upload and readiness wait, register, copy, tag, parameter listing) are oracle inputs, not modelled. So are the waiter's polling and timeouts.
- The rusoto region table is abstract: `Region::from_str` is a partial function and `Region::default()` a given region. A region is identified by its name, so custom endpoints are not modelled.
- Reading and deserialising `image-info.json`, including `de_string_to_u64`, is left out. `Publish.ImageInfo` arrives already parsed.
- The GPT header check of the `gpt` crate is left out. Its outcome is the oracle `diskHeader`.
- JSON serialisation of the output and `println!` are left out. `Run` returns the map that would be printed.
- The output format reaches `Run` already parsed, and its only value needs no dispatch.
- Progress bars, logging, StructOpt parsing, the tokio runtime and `process::exit` carry no values and are left out.
- Image.RootSize: models the debug build, where `logical_bytes + 2^30` overflowing u64 panics. The release build's wrap-around is not modelled.
- Regions.ResolveAllRegions: requires that some listing response stops the loop (`Ends`): a failed request, a page that does not parse, or a page without a continuation token. If every response is a parsable page with a further token, the source loops forever, and the model does not describe that run.
- The source's check that the split list is non-empty is not a separate step. `Strings.Split` shows that it always holds.
- Concurrency is not modelled: the source awaits each request before the next.
