/** Region resolution: the `--regions` string becomes a home region, the
    resolved list, and the regions to copy the image to. The list is either
    the explicitly named regions or, after the sentinel "all", every region
    the provider's parameter directory lists, page by page. */
module Regions {
  import opened Wrappers
  import opened Strings
  import opened Aws

  /** The first token that asks for every region. */
  const Sentinel := "all"

  /** The directory path that lists the compute service's regions. */
  const RegionsPath := "/aws/service/global-infrastructure/services/ec2/regions"

  // ---------------------------------------------------------------------------
  // Explicit region lists
  // ---------------------------------------------------------------------------

  /** Parse every token with `parse`, all or nothing (`collect` into a
      `Result`): the parsed regions in token order, or the first token that
      does not parse. */
  function ParseAll(tokens: seq<string>, parse: string -> Option<Region>): (r: Result<seq<Region>, string>)
    ensures r.Ok? <==> forall i :: 0 <= i < |tokens| ==> parse(tokens[i]).Some?
    ensures r.Ok? ==> |r.value| == |tokens|
    ensures r.Ok? ==> forall i :: 0 <= i < |tokens| ==> parse(tokens[i]) == Some(r.value[i])
    ensures r.Err? ==> r.error in tokens && parse(r.error).None?
    ensures r.Err? ==> exists i :: 0 <= i < |tokens| && tokens[i] == r.error && parse(tokens[i]).None?
                              && forall j :: 0 <= j < i ==> parse(tokens[j]).Some?
    decreases |tokens|
  {
    if |tokens| == 0 then Ok([])
    else match parse(tokens[0])
      case None => Err(tokens[0])
      case Some(region) =>
        match ParseAll(tokens[1..], parse)
        case Err(bad) =>
          assert forall i :: 1 <= i < |tokens| ==> tokens[i] == tokens[1..][i - 1];
          Err(bad)
        case Ok(rest) => Ok([region] + rest)
  }

  /** The resolved list without the home region (`filter(|f| f != home)`). */
  function Without(regions: seq<Region>, home: Region): (r: seq<Region>)
    ensures home !in r
    ensures forall x :: x in r <==> x in regions && x != home
    ensures forall x :: x != home ==> multiset(r)[x] == multiset(regions)[x]
    decreases |regions|
  {
    if |regions| == 0 then []
    else
      var rest := Without(regions[1..], home);
      assert regions == [regions[0]] + regions[1..];
      if regions[0] == home then rest else [regions[0]] + rest
  }

  /** Filtering keeps order: it commutes with concatenation. */
  lemma {:induction false} WithoutAppend(a: seq<Region>, b: seq<Region>, home: Region)
    ensures Without(a + b, home) == Without(a, home) + Without(b, home)
    decreases |a|
  {
    if |a| == 0 {
      assert a + b == b;
    } else {
      assert (a + b)[1..] == a[1..] + b;
      WithoutAppend(a[1..], b, home);
    }
  }

  // ---------------------------------------------------------------------------
  // Region discovery by paginated directory listing
  // ---------------------------------------------------------------------------

  /** A parameter that yields a region: it has a value and the value parses. */
  predicate Usable(p: Parameter, parse: string -> Option<Region>)
  {
    p.value.Some? && parse(p.value.value).Some?
  }

  /** How an unusable parameter fails: `unwrap` of a missing value panics,
      a value that does not parse is an error. */
  function ParameterFailure(p: Parameter): Failure
  {
    match p.value
    case None => Panic(UnwrapNone)
    case Some(v) => InvalidRegion(v)
  }

  /** The page's parameters turned into regions. The `map`s are lazy and
      `collect` stops at the first error, so the first unusable parameter
      decides the outcome and later ones are never looked at. */
  function ParseParameters(ps: seq<Parameter>, parse: string -> Option<Region>): (r: Result<seq<Region>, Failure>)
    ensures r.Ok? <==> forall i :: 0 <= i < |ps| ==> Usable(ps[i], parse)
    ensures r.Ok? ==> |r.value| == |ps|
    ensures r.Ok? ==> forall i :: 0 <= i < |ps| ==> parse(ps[i].value.value) == Some(r.value[i])
    ensures r.Err? ==> exists i :: 0 <= i < |ps| && !Usable(ps[i], parse) && r.error == ParameterFailure(ps[i])
                              && forall j :: 0 <= j < i ==> Usable(ps[j], parse)
    decreases |ps|
  {
    if |ps| == 0 then Ok([])
    else if !Usable(ps[0], parse) then Err(ParameterFailure(ps[0]))
    else
      match ParseParameters(ps[1..], parse)
      case Err(e) =>
        assert forall i :: 1 <= i < |ps| ==> ps[i] == ps[1..][i - 1];
        Err(e)
      case Ok(rest) => Ok([parse(ps[0].value.value).value] + rest)
  }

  /** One page's regions; a page without a parameter list panics on `unwrap`. */
  function ParsePage(page: Page, parse: string -> Option<Region>): (r: Result<seq<Region>, Failure>)
    ensures r.Ok? <==> page.parameters.Some? && forall i :: 0 <= i < |page.parameters.value| ==> Usable(page.parameters.value[i], parse)
    ensures r.Ok? ==> |r.value| == |page.parameters.value|
    ensures page.parameters.None? ==> r == Err(Panic(UnwrapNone))
  {
    match page.parameters
    case None => Err(Panic(UnwrapNone))
    case Some(ps) => ParseParameters(ps, parse)
  }

  /** A response at which the loop returns: a failed request, a page that
      does not parse, or the last page. */
  predicate Stops(response: PageResponse, parse: string -> Option<Region>)
  {
    response.Err? || ParsePage(response.value, parse).Err? || response.value.nextToken.None?
  }

  /** The loop returns: some response stops it. */
  predicate Ends(pages: seq<PageResponse>, parse: string -> Option<Region>)
  {
    exists k :: 0 <= k < |pages| && Stops(pages[k], parse)
  }

  /** Past a response that does not stop the loop, the rest still stops it. */
  lemma EndsTail(pages: seq<PageResponse>, parse: string -> Option<Region>)
    requires Ends(pages, parse) && !Stops(pages[0], parse)
    ensures Ends(pages[1..], parse)
  {
    var k :| 0 <= k < |pages| && Stops(pages[k], parse);
    assert pages[1..][k - 1] == pages[k];
  }

  /** The index of the response at which the loop returns. */
  function FirstStop(pages: seq<PageResponse>, parse: string -> Option<Region>): (k: nat)
    requires Ends(pages, parse)
    ensures k < |pages| && Stops(pages[k], parse)
    ensures forall j :: 0 <= j < k ==> !Stops(pages[j], parse)
    decreases |pages|
  {
    if Stops(pages[0], parse) then 0
    else
      EndsTail(pages, parse);
      var k := FirstStop(pages[1..], parse);
      assert forall j :: 1 <= j <= k + 1 ==> pages[j] == pages[1..][j - 1];
      k + 1
  }

  /** `acc` in front of a successful outcome; failures pass through. */
  function Prepend(acc: seq<Region>, r: Result<seq<Region>, Failure>): Result<seq<Region>, Failure>
  {
    match r
    case Ok(rest) => Ok(acc + rest)
    case Err(e) => Err(e)
  }

  /** What `resolve_all_regions` returns when the listing answers with
      `pages`, one response per request in order. */
  function Discover(pages: seq<PageResponse>, parse: string -> Option<Region>): (r: Result<seq<Region>, Failure>)
    requires Ends(pages, parse)
    ensures r.Ok? ==> pages[0].Ok? && ParsePage(pages[0].value, parse).Ok? && ParsePage(pages[0].value, parse).value <= r.value
    decreases |pages|
  {
    match pages[0]
    case Err(reason) => Err(RequestFailed("GetParametersByPath", reason))
    case Ok(page) =>
      match ParsePage(page, parse)
      case Err(e) => Err(e)
      case Ok(regions) =>
        if page.nextToken.None? then Ok(regions)
        else
          EndsTail(pages, parse);
          Prepend(regions, Discover(pages[1..], parse))
  }

  /** The regions of the first `n` pages, in page order. */
  function Gathered(pages: seq<PageResponse>, parse: string -> Option<Region>, n: nat): seq<Region>
    requires n <= |pages|
    requires forall j :: 0 <= j < n ==> pages[j].Ok? && ParsePage(pages[j].value, parse).Ok?
  {
    if n == 0 then [] else Gathered(pages, parse, n - 1) + ParsePage(pages[n - 1].value, parse).value
  }

  /** How many parameters the first `n` pages hold. */
  function ParameterCount(pages: seq<PageResponse>, n: nat): nat
    requires n <= |pages|
    requires forall j :: 0 <= j < n ==> pages[j].Ok? && pages[j].value.parameters.Some?
  {
    if n == 0 then 0 else ParameterCount(pages, n - 1) + |pages[n - 1].value.parameters.value|
  }

  /** The failure of the response at which the loop returns, if it fails. */
  function StopFailure(response: PageResponse, parse: string -> Option<Region>): Failure
    requires response.Err? || ParsePage(response.value, parse).Err?
  {
    if response.Err? then RequestFailed("GetParametersByPath", response.error)
    else ParsePage(response.value, parse).error
  }

  lemma {:induction false} GatheredTail(pages: seq<PageResponse>, parse: string -> Option<Region>, n: nat)
    requires 1 <= n <= |pages|
    requires forall j :: 0 <= j < n ==> pages[j].Ok? && ParsePage(pages[j].value, parse).Ok?
    ensures Gathered(pages, parse, n)
         == ParsePage(pages[0].value, parse).value + Gathered(pages[1..], parse, n - 1)
  {
    if n > 1 {
      GatheredTail(pages, parse, n - 1);
      assert pages[1..][n - 2] == pages[n - 1];
    }
  }

  /** Discovery succeeds exactly when the response at which the loop returns
      is a parsable last page; the regions are then those of every page up to
      it, in order. Otherwise it fails with that response's failure and keeps
      nothing of the pages before it. */
  lemma {:induction false} DiscoverIsConcatenation(pages: seq<PageResponse>, parse: string -> Option<Region>)
    requires Ends(pages, parse)
    ensures var k := FirstStop(pages, parse);
      && (Discover(pages, parse).Ok? <==> pages[k].Ok? && ParsePage(pages[k].value, parse).Ok?)
      && (Discover(pages, parse).Ok? ==> Discover(pages, parse).value == Gathered(pages, parse, k + 1))
      && (Discover(pages, parse).Err? ==> Discover(pages, parse).error == StopFailure(pages[k], parse))
    decreases |pages|
  {
    var k := FirstStop(pages, parse);
    if k > 0 {
      var tail := pages[1..];
      var head := ParsePage(pages[0].value, parse).value;
      FirstStopTail(pages, parse);
      assert Discover(pages, parse) == Prepend(head, Discover(tail, parse));
      DiscoverIsConcatenation(tail, parse);
      assert tail[k - 1] == pages[k];
      if Discover(tail, parse).Ok? {
        forall j | 0 <= j < k + 1
          ensures pages[j].Ok? && ParsePage(pages[j].value, parse).Ok?
        {
          assert j < k ==> !Stops(pages[j], parse);
        }
        GatheredTail(pages, parse, k + 1);
      }
    }
  }

  /** Past a response that does not stop the loop, the stop is one step nearer. */
  lemma FirstStopTail(pages: seq<PageResponse>, parse: string -> Option<Region>)
    requires Ends(pages, parse) && !Stops(pages[0], parse)
    ensures Ends(pages[1..], parse) && FirstStop(pages[1..], parse) == FirstStop(pages, parse) - 1
  {
    EndsTail(pages, parse);
  }

  /** The discovered list holds one region per parameter of the pages read. */
  lemma {:induction false} GatheredCount(pages: seq<PageResponse>, parse: string -> Option<Region>, n: nat)
    requires n <= |pages|
    requires forall j :: 0 <= j < n ==> pages[j].Ok? && ParsePage(pages[j].value, parse).Ok?
    ensures |Gathered(pages, parse, n)| == ParameterCount(pages, n)
  {
    if n > 0 {
      GatheredCount(pages, parse, n - 1);
    }
  }

  /** The continuation token the `i`-th listing request carries: none for
      the first, then the token of the page before. */
  function RequestToken(pages: seq<PageResponse>, i: nat): Option<string>
    requires i <= |pages|
  {
    if i == 0 || pages[i - 1].Err? then None else pages[i - 1].value.nextToken
  }

  /** The first `n` listing requests, all through a client for `client`. */
  function ListingCalls(pages: seq<PageResponse>, client: Region, n: nat): (r: seq<Call>)
    requires n <= |pages|
    ensures |r| == n
    ensures forall j :: 0 <= j < n ==> r[j] == GetParametersByPath(client, RegionsPath, RequestToken(pages, j))
  {
    if n == 0 then [] else ListingCalls(pages, client, n - 1) + [GetParametersByPath(client, RegionsPath, RequestToken(pages, n - 1))]
  }

  /** One unfolding of `Discover` at the `i`-th response. */
  lemma DiscoverAt(pages: seq<PageResponse>, parse: string -> Option<Region>, i: nat)
    requires i < |pages| && Ends(pages[i..], parse)
    ensures pages[i].Err? ==> Discover(pages[i..], parse) == Err(RequestFailed("GetParametersByPath", pages[i].error))
    ensures pages[i].Ok? && ParsePage(pages[i].value, parse).Err? ==>
      Discover(pages[i..], parse) == Err(ParsePage(pages[i].value, parse).error)
    ensures pages[i].Ok? && ParsePage(pages[i].value, parse).Ok? && pages[i].value.nextToken.None? ==>
      Discover(pages[i..], parse) == Ok(ParsePage(pages[i].value, parse).value)
    ensures !Stops(pages[i], parse) ==> Ends(pages[i + 1..], parse)
    ensures !Stops(pages[i], parse) ==>
      Discover(pages[i..], parse) == Prepend(ParsePage(pages[i].value, parse).value, Discover(pages[i + 1..], parse))
  {
    assert pages[i..][0] == pages[i];
    if !Stops(pages[i], parse) {
      EndsTail(pages[i..], parse);
      assert pages[i..][1..] == pages[i + 1..];
    }
  }

  /** The loop returns at the first response that stops it. */
  lemma FirstStopAt(pages: seq<PageResponse>, parse: string -> Option<Region>, i: nat)
    requires Ends(pages, parse) && i < |pages| && Stops(pages[i], parse)
    requires forall j :: 0 <= j < i ==> !Stops(pages[j], parse)
    ensures FirstStop(pages, parse) == i
  {
  }

  /** Prepending twice is prepending the concatenation. */
  lemma PrependPrepend(a: seq<Region>, b: seq<Region>, r: Result<seq<Region>, Failure>)
    ensures Prepend(a, Prepend(b, r)) == Prepend(a + b, r)
  {
    if r.Ok? {
      assert a + (b + r.value) == (a + b) + r.value;
    }
  }

  /** The state of the discovery loop before its `i`-th request: no earlier
      response stopped it, `result` holds what those responses contributed,
      and `nextToken` is the token the request will carry. */
  ghost predicate Looping(pages: seq<PageResponse>, parse: string -> Option<Region>, i: nat, result: seq<Region>, nextToken: Option<string>)
  {
    && i < |pages| && Ends(pages[i..], parse)
    && Prepend(result, Discover(pages[i..], parse)) == Discover(pages, parse)
    && (forall j :: 0 <= j < i ==> !Stops(pages[j], parse))
    && nextToken == RequestToken(pages, i)
  }

  /** The loop starts in its initial state. */
  lemma LoopStarts(pages: seq<PageResponse>, parse: string -> Option<Region>)
    requires Ends(pages, parse)
    ensures Looping(pages, parse, 0, [], None)
  {
    assert pages[0..] == pages;
    var d := Discover(pages, parse);
    if d.Ok? {
      assert [] + d.value == d.value;
    }
  }

  /** Where the `i`-th response stops the loop, that is the first stop, and
      the loop's return value is discovery's outcome. */
  lemma LoopStops(pages: seq<PageResponse>, parse: string -> Option<Region>, i: nat, result: seq<Region>, nextToken: Option<string>)
    requires Looping(pages, parse, i, result, nextToken) && Stops(pages[i], parse)
    ensures FirstStop(pages, parse) == i
    ensures pages[i].Err? ==> Discover(pages, parse) == Err(RequestFailed("GetParametersByPath", pages[i].error))
    ensures pages[i].Ok? && ParsePage(pages[i].value, parse).Err? ==>
      Discover(pages, parse) == Err(ParsePage(pages[i].value, parse).error)
    ensures pages[i].Ok? && ParsePage(pages[i].value, parse).Ok? ==>
      Discover(pages, parse) == Ok(result + ParsePage(pages[i].value, parse).value)
  {
    DiscoverAt(pages, parse, i);
    FirstStopAt(pages, parse, i);
  }

  /** Where the `i`-th response does not stop the loop, appending its regions
      and taking its token gives the state before the next request. */
  lemma LoopContinues(pages: seq<PageResponse>, parse: string -> Option<Region>, i: nat, result: seq<Region>, nextToken: Option<string>)
    requires Looping(pages, parse, i, result, nextToken) && !Stops(pages[i], parse)
    ensures Looping(pages, parse, i + 1, result + ParsePage(pages[i].value, parse).value, pages[i].value.nextToken)
  {
    DiscoverAt(pages, parse, i);
    PrependPrepend(result, ParsePage(pages[i].value, parse).value, Discover(pages[i + 1..], parse));
  }

  /** `resolve_all_regions`: request pages from the directory, following the
      continuation token, and append each page's regions until a page comes
      without a token. The `i`-th request carries the token of the `i-1`-th
      page (none for the first) and is sent through a client for
      `defaultRegion`. */
  method ResolveAllRegions(pages: seq<PageResponse>, parse: string -> Option<Region>, defaultRegion: Region)
    returns (r: Result<seq<Region>, Failure>, calls: seq<Call>)
    requires Ends(pages, parse)
    ensures r == Discover(pages, parse)
    ensures calls == ListingCalls(pages, defaultRegion, FirstStop(pages, parse) + 1)
  {
    var nextToken: Option<string> := None;
    var result: seq<Region> := [];
    var i := 0;
    calls := [];
    LoopStarts(pages, parse);
    while true
      invariant Looping(pages, parse, i, result, nextToken)
      invariant calls == ListingCalls(pages, defaultRegion, i)
      decreases |pages| - i
    {
      calls := calls + [GetParametersByPath(defaultRegion, RegionsPath, nextToken)];
      var response := pages[i];
      if response.Err? {
        LoopStops(pages, parse, i, result, nextToken);
        r := Err(RequestFailed("GetParametersByPath", response.error));
        return;
      }
      var regions := ParsePage(response.value, parse);
      if regions.Err? {
        LoopStops(pages, parse, i, result, nextToken);
        r := Err(regions.error);
        return;
      }
      if response.value.nextToken.None? {
        LoopStops(pages, parse, i, result, nextToken);
        r := Ok(result + regions.value);
        return;
      }
      LoopContinues(pages, parse, i, result, nextToken);
      result := result + regions.value;
      nextToken := response.value.nextToken;
      i := i + 1;
    }
  }

  // ---------------------------------------------------------------------------
  // The whole selection
  // ---------------------------------------------------------------------------

  /** The home region (where the image is uploaded and registered), the
      resolved list, and the regions the image is copied to. */
  datatype Selection = Selection(home: Region, resolved: seq<Region>, copies: seq<Region>)

  /** The selection `--regions` asks for. With the sentinel as first token the
      home is the ambient default region and the list is whatever discovery
      finds (the other tokens are ignored); otherwise every token must parse,
      the list is the parsed tokens and the home is the first of them. In
      both cases the copy regions are the list without the home. */
  function Resolve(regionsArg: string, parse: string -> Option<Region>, defaultRegion: Region, pages: seq<PageResponse>)
    : (r: Result<Selection, Failure>)
    requires Split(regionsArg, ',')[0] == Sentinel ==> Ends(pages, parse)
    ensures r.Ok? ==> r.value.home !in r.value.copies
    ensures r.Ok? ==> forall x :: x in r.value.copies <==> x in r.value.resolved && x != r.value.home
    ensures r.Ok? ==> forall x :: x != r.value.home ==> multiset(r.value.copies)[x] == multiset(r.value.resolved)[x]
    ensures r.Ok? ==> r.value.copies == Without(r.value.resolved, r.value.home)
  {
    var tokens := Split(regionsArg, ',');
    if tokens[0] == Sentinel then
      match Discover(pages, parse)
      case Err(e) => Err(e)
      case Ok(regions) => Ok(Selection(defaultRegion, regions, Without(regions, defaultRegion)))
    else
      match ParseAll(tokens, parse)
      case Err(bad) => Err(InvalidRegion(bad))
      case Ok(regions) => Ok(Selection(regions[0], regions, Without(regions, regions[0])))
  }

  /** With the sentinel first, resolution is discovery, homed at the default
      region: it succeeds exactly when discovery does, with the same list,
      and fails with discovery's failure. */
  lemma ResolveSentinel(regionsArg: string, parse: string -> Option<Region>, defaultRegion: Region, pages: seq<PageResponse>)
    requires Split(regionsArg, ',')[0] == Sentinel && Ends(pages, parse)
    ensures var r := Resolve(regionsArg, parse, defaultRegion, pages);
      && (r.Ok? <==> Discover(pages, parse).Ok?)
      && (r.Ok? ==> r.value.home == defaultRegion && r.value.resolved == Discover(pages, parse).value)
      && (r.Err? ==> r.error == Discover(pages, parse).error)
  {
  }

  /** With an explicit list, resolution succeeds exactly when every token
      parses; the list is then the parsed tokens in order and the home is the
      first. Otherwise the failure names a token that does not parse. */
  lemma ResolveExplicit(regionsArg: string, parse: string -> Option<Region>, defaultRegion: Region, pages: seq<PageResponse>)
    requires Split(regionsArg, ',')[0] != Sentinel
    ensures var r := Resolve(regionsArg, parse, defaultRegion, pages);
      var tokens := Split(regionsArg, ',');
      && (r.Ok? <==> forall i :: 0 <= i < |tokens| ==> parse(tokens[i]).Some?)
      && (r.Ok? ==> |r.value.resolved| == |tokens| && r.value.home == r.value.resolved[0])
      && (r.Ok? ==> forall i :: 0 <= i < |tokens| ==> parse(tokens[i]) == Some(r.value.resolved[i]))
      && (r.Err? ==> r.error.InvalidRegion? && r.error.token in tokens && parse(r.error.token).None?)
  {
    var tokens := Split(regionsArg, ',');
    var parsed := ParseAll(tokens, parse);
    assert parsed.Ok? <==> forall i :: 0 <= i < |tokens| ==> parse(tokens[i]).Some?;
  }

  /** The sentinel is looked for in the first token only: it is there exactly
      when the argument is "all" or starts with "all,", whatever follows. */
  lemma SentinelOnlyInFirstToken(regionsArg: string)
    ensures Split(regionsArg, ',')[0] == Sentinel
        <==> regionsArg == Sentinel || (|regionsArg| >= 4 && regionsArg[..4] == Sentinel + ",")
  {
    if Split(regionsArg, ',')[0] == Sentinel {
      SentinelHeadShape(regionsArg);
    }
    if regionsArg == Sentinel {
      SplitWhole(Sentinel, ',');
    } else if |regionsArg| >= 4 && regionsArg[..4] == Sentinel + "," {
      SentinelThenMore(regionsArg);
    }
  }

  /** An argument starting with "all," has "all" as its first token. */
  lemma SentinelThenMore(regionsArg: string)
    requires |regionsArg| >= 4 && regionsArg[..4] == Sentinel + ","
    ensures Split(regionsArg, ',')[0] == Sentinel
  {
    var rest := regionsArg[4..];
    assert regionsArg == Sentinel + [','] + rest by {
      assert regionsArg == regionsArg[..4] + rest;
    }
    SplitPiece(Sentinel, ',', rest);
  }

  /** A first token equal to the sentinel is the whole argument or is followed
      by the separator. */
  lemma SentinelHeadShape(regionsArg: string)
    requires Split(regionsArg, ',')[0] == Sentinel
    ensures regionsArg == Sentinel || (|regionsArg| >= 4 && regionsArg[..4] == Sentinel + ",")
  {
    SplitHead(regionsArg, ',');
    SentinelPrefixShape(regionsArg, Split(regionsArg, ',')[0]);
  }

  /** The character-level half of `SentinelHeadShape`. */
  lemma SentinelPrefixShape(s: string, head: string)
    requires head == Sentinel && |head| <= |s| && s[..|head|] == head
    requires |head| == |s| || s[|head|] == ','
    ensures s == Sentinel || (|s| >= 4 && s[..4] == Sentinel + ",")
  {
    if |s| > 3 {
      assert s[..4] == s[..3] + [s[3]];
    }
  }

  /** The explicit list given as "a,b" with both tokens known resolves to home
      `a` and copies `[b]`. */
  lemma TwoExplicitRegions(a: string, b: string, parse: string -> Option<Region>, defaultRegion: Region, pages: seq<PageResponse>)
    requires ',' !in a && ',' !in b && a != Sentinel
    requires parse(a).Some? && parse(b).Some? && parse(a) != parse(b)
    ensures Split(a + "," + b, ',') == [a, b]
    ensures Resolve(a + "," + b, parse, defaultRegion, pages)
         == Ok(Selection(parse(a).value, [parse(a).value, parse(b).value], [parse(b).value]))
  {
    SplitJoin([a, b], ',');
    assert Join([a, b], ',') == a + "," + b;
    var ra, rb := parse(a).value, parse(b).value;
    assert Without([rb], ra) == [rb] by {
      assert [rb][1..] == [];
    }
    assert Without([ra, rb], ra) == [rb] by {
      assert [ra, rb][1..] == [rb];
    }
    var parsed := ParseAll([a, b], parse);
    assert [a, b][0] == a && [a, b][1] == b;
    assert parsed.Ok?;
    assert parsed.value == [ra, rb];
  }

  /** The remote calls region selection makes: the listing requests up to
      the stopping response when the sentinel is first, none for an explicit
      list. */
  function SelectionCalls(regionsArg: string, parse: string -> Option<Region>, defaultRegion: Region, pages: seq<PageResponse>)
    : (calls: seq<Call>)
    requires Split(regionsArg, ',')[0] == Sentinel ==> Ends(pages, parse)
    ensures forall c :: c in calls ==> c.GetParametersByPath? && c.client == defaultRegion && c.path == RegionsPath
  {
    if Split(regionsArg, ',')[0] == Sentinel then ListingCalls(pages, defaultRegion, FirstStop(pages, parse) + 1) else []
  }

  /** `let mut initial_region = Region::default()`, reassigned to the first
      parsed token when the list is explicit; then the copy regions are the
      resolved ones other than the home. */
  method ResolveRegions(regionsArg: string, parse: string -> Option<Region>, defaultRegion: Region, pages: seq<PageResponse>)
    returns (r: Result<Selection, Failure>, calls: seq<Call>)
    requires Split(regionsArg, ',')[0] == Sentinel ==> Ends(pages, parse)
    ensures r == Resolve(regionsArg, parse, defaultRegion, pages)
    ensures calls == SelectionCalls(regionsArg, parse, defaultRegion, pages)
  {
    var regionStrs := Split(regionsArg, ',');
    var initialRegion := defaultRegion;
    var resolved: seq<Region>;
    if regionStrs[0] == Sentinel {
      var discovered;
      discovered, calls := ResolveAllRegions(pages, parse, defaultRegion);
      if discovered.Err? {
        r := Err(discovered.error);
        return;
      }
      resolved := discovered.value;
    } else {
      calls := [];
      var parsed := ParseAll(regionStrs, parse);
      if parsed.Err? {
        r := Err(InvalidRegion(parsed.error));
        return;
      }
      resolved := parsed.value;
      initialRegion := resolved[0];
    }
    var copyRegions := Without(resolved, initialRegion);
    r := Ok(Selection(initialRegion, resolved, copyRegions));
  }
}
