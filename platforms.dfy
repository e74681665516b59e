/**
 * gulpfile.js, lines 16-49: the platforms a task is run for. The `--platforms`
 * request (a comma-separated list, or `all`) or, without one, the host's own tag is
 * split into tokens; the known platforms among them are kept, `win64`/`osx64` add
 * the `win32`/`osx32` fallbacks, and duplicates are dropped. A first token `all`
 * selects every available platform.
 */
module Platforms {
  import opened Wrappers
  import opened Js
  import opened System

  /** `availablePlatforms`. */
  const AvailablePlatforms: seq<string> := ["linux", "win", "osx"]

  /** Everything a resolution can yield: the available platforms and the two fallbacks. */
  const ResolvableTargets: seq<string> := ["linux", "win", "osx", "win32", "osx32"]

  /** Every tag `getPlatform` returns is an available platform. */
  lemma HostTagIsAvailable(nodePlatform: string)
    ensures GetPlatform(nodePlatform).Ok? ==> GetPlatform(nodePlatform).value in AvailablePlatforms
  {
  }

  /** `(argv.platforms || currentPlatform()).split(',')`: an absent or empty request
      falls back to the host's tag, and only then is the host consulted. */
  function RequestedPlatforms(request: Option<string>, nodePlatform: string): (r: Result<seq<string>, SystemError>)
    ensures r.Ok? ==> |r.value| >= 1
    ensures r.Err? <==> (request == None || request == Some("")) && GetPlatform(nodePlatform).Err?
    ensures request.Some? && request.value != "" ==> r == Ok(Split(request.value, ','))
    ensures (request == None || request == Some("")) && GetPlatform(nodePlatform).Ok? ==>
      r == Ok([GetPlatform(nodePlatform).value])
  {
    if request.Some? && request.value != "" then Ok(Split(request.value, ','))
    else
      match GetPlatform(nodePlatform)
      case Ok(tag) => SplitNoSeparator(tag, ','); Ok(Split(tag, ','))
      case Err(e) => Err(e)
  }

  /** The tokens that are available platforms, in request order (the loop of lines 33-35). */
  function KeepAvailable(tokens: seq<string>): (r: seq<string>)
    ensures forall x :: x in r <==> x in tokens && x in AvailablePlatforms
    decreases |tokens|
  {
    if tokens == [] then []
    else
      var last := tokens[|tokens| - 1];
      assert tokens == tokens[..|tokens| - 1] + [last];
      KeepAvailable(tokens[..|tokens| - 1]) + (if last in AvailablePlatforms then [last] else [])
  }

  /** The 32-bit fallbacks of lines 38-43. */
  function Fallbacks(tokens: seq<string>): seq<string> {
    (if "win64" !in AvailablePlatforms && "win64" in tokens then ["win32"] else []) +
    (if "osx64" !in AvailablePlatforms && "osx64" in tokens then ["osx32"] else [])
  }

  /** The fallbacks are `win32` exactly when `win64` was requested and `osx32` exactly
      when `osx64` was, neither of them an available platform, each at most once. */
  lemma FallbacksFacts(tokens: seq<string>)
    ensures "win32" in Fallbacks(tokens) <==> "win64" in tokens
    ensures "osx32" in Fallbacks(tokens) <==> "osx64" in tokens
    ensures forall x :: x in Fallbacks(tokens) ==> x in ResolvableTargets && x !in AvailablePlatforms
    ensures NoDuplicates(Fallbacks(tokens))
  {
    Win64NotAvailable();
  }

  /** Lines 45-48 applied to the token list. */
  function Resolve(tokens: seq<string>): (r: seq<string>)
    requires |tokens| >= 1
    ensures tokens[0] == "all" ==> r == AvailablePlatforms
    ensures NoDuplicates(r)
    ensures forall x :: x in r ==> x in ResolvableTargets
  {
    if tokens[0] == "all" then AvailablePlatforms
    else Unique(KeepAvailable(tokens) + Fallbacks(tokens))
  }

  /** What `parsePlatforms()` returns, or the error `currentPlatform()` throws. */
  function ResolvedPlatforms(request: Option<string>, nodePlatform: string): (r: Result<seq<string>, SystemError>)
    ensures r.Err? <==> (request == None || request == Some("")) && GetPlatform(nodePlatform).Err?
    ensures r.Err? ==> r.error == UnsupportedOs
    ensures r.Ok? && request.Some? && request.value != "" ==> r.value == Resolve(Split(request.value, ','))
  {
    match RequestedPlatforms(request, nodePlatform)
    case Ok(tokens) => Ok(Resolve(tokens))
    case Err(e) => Err(e)
  }

  /** The loop of lines 31-35: push each requested token that is an available platform. */
  method PushAvailable(requested: seq<string>) returns (valid: seq<string>)
    ensures valid == KeepAvailable(requested)
  {
    valid := [];
    var i := 0;
    while i < |requested|
      invariant 0 <= i <= |requested|
      invariant valid == KeepAvailable(requested[..i])
    {
      assert requested[..i + 1][..i] == requested[..i];
      if requested[i] in AvailablePlatforms {
        valid := valid + [requested[i]];
      }
      i := i + 1;
    }
    assert requested[..i] == requested;
  }

  /** `parsePlatforms()`, with the `--platforms` value and `process.platform` as parameters. */
  method ParsePlatforms(request: Option<string>, nodePlatform: string) returns (r: Result<seq<string>, SystemError>)
    ensures r == ResolvedPlatforms(request, nodePlatform)
  {
    var requested: seq<string>;
    if request.Some? && request.value != "" {
      requested := Split(request.value, ',');
    } else {
      var host := GetPlatform(nodePlatform);
      if host.Err? {
        return Err(host.error);
      }
      requested := Split(host.value, ',');
    }
    var valid := PushAvailable(requested);
    ghost var kept := valid;
    if "win64" !in AvailablePlatforms && "win64" in requested {
      valid := valid + ["win32"];
    }
    if "osx64" !in AvailablePlatforms && "osx64" in requested {
      valid := valid + ["osx32"];
    }
    assert valid == kept + Fallbacks(requested);
    var unique := Unique(valid);
    r := Ok(if requested[0] == "all" then AvailablePlatforms else unique);
    ParsedIsResolved(request, nodePlatform, requested);
  }

  /** The tokens `ParsePlatforms` split are those of `RequestedPlatforms`, so its result
      is `Resolve` of them. */
  lemma ParsedIsResolved(request: Option<string>, nodePlatform: string, requested: seq<string>)
    requires request.Some? && request.value != "" ==> requested == Split(request.value, ',')
    requires !(request.Some? && request.value != "") ==>
      GetPlatform(nodePlatform).Ok? && requested == Split(GetPlatform(nodePlatform).value, ',')
    ensures |requested| >= 1
    ensures ResolvedPlatforms(request, nodePlatform) == Ok(Resolve(requested))
  {
  }

  /** A first token `all` selects exactly the available platforms, whatever follows it. */
  lemma AllShortCircuits(rest: string, nodePlatform: string)
    requires rest == "" || rest[0] == ','
    ensures ResolvedPlatforms(Some("all" + rest), nodePlatform) == Ok(AvailablePlatforms)
  {
    SplitPrefix("all", rest, ',');
    if rest != "" {
      assert Split(rest, ',') == [""] + Split(rest[1..], ',');
    }
    assert Split("all" + rest, ',')[0] == "all";
  }

  /** Without a request the single host tag is the result, or the host's error. */
  lemma NoRequestResolvesToHost(request: Option<string>, nodePlatform: string)
    requires request == None || request == Some("")
    ensures GetPlatform(nodePlatform).Ok? ==> ResolvedPlatforms(request, nodePlatform) == Ok([GetPlatform(nodePlatform).value])
    ensures GetPlatform(nodePlatform).Err? ==> ResolvedPlatforms(request, nodePlatform) == Err(UnsupportedOs)
  {
    var host := GetPlatform(nodePlatform);
    if host.Ok? {
      var tag := host.value;
      SplitNoSeparator(tag, ',');
      assert RequestedPlatforms(request, nodePlatform) == Ok([tag]);
      SingleAvailableToken(tag);
    }
  }

  /** A lone available platform resolves to itself. */
  lemma SingleAvailableToken(tag: string)
    requires tag in AvailablePlatforms
    ensures Resolve([tag]) == [tag]
  {
    assert [tag][..0] == [];
    assert KeepAvailable([tag]) == [tag];
    assert Fallbacks([tag]) == [];
    assert [tag] + [] == [tag];
    UniqueOfDistinct([tag]);
  }

  /** A resolution never repeats a platform. */
  lemma ResolvedHasNoDuplicates(request: Option<string>, nodePlatform: string)
    ensures ResolvedPlatforms(request, nodePlatform).Ok? ==> NoDuplicates(ResolvedPlatforms(request, nodePlatform).value)
  {
  }

  /** Outside the `all` case the result holds exactly the requested available platforms
      and the fallbacks of requested 64-bit variants. */
  lemma ResolvedMembers(tokens: seq<string>, x: string)
    requires |tokens| >= 1 && tokens[0] != "all"
    ensures x in Resolve(tokens) <==>
      (x in AvailablePlatforms && x in tokens) ||
      (x == "win32" && "win64" in tokens) ||
      (x == "osx32" && "osx64" in tokens)
  {
  }

  /** Outside the `all` case the result is laid out as the code builds it: first the
      requested available platforms, each once, in the order they are first requested,
      then `win32` if `win64` was requested, then `osx32` if `osx64` was. */
  lemma {:induction false} ResolvedLayout(tokens: seq<string>)
    requires |tokens| >= 1 && tokens[0] != "all"
    ensures var r := Resolve(tokens);
      var k := |r| - |Fallbacks(tokens)|;
      0 <= k &&
      r[k..] == (if "win64" in tokens then ["win32"] else []) + (if "osx64" in tokens then ["osx32"] else []) &&
      (forall i :: 0 <= i < k ==> r[i] in AvailablePlatforms && r[i] in tokens) &&
      (forall i, j :: 0 <= i < j < k ==> IndexOf(tokens, r[i]) < IndexOf(tokens, r[j]))
  {
    var keep, fb := KeepAvailable(tokens), Fallbacks(tokens);
    assert NoDuplicates(fb);
    UniqueAppendFresh(keep, fb);
    var u := Unique(keep);
    var r := Resolve(tokens);
    assert r == u + fb;
    assert r[|u|..] == fb;
    UniqueFirstOccurrenceOrder(keep);
    forall i, j | 0 <= i < j < |u|
      ensures IndexOf(tokens, r[i]) < IndexOf(tokens, r[j])
    {
      assert r[i] == u[i] && r[j] == u[j];
      KeepAvailableOrder(tokens, u[i], u[j]);
    }
  }

  /** Keeping the available tokens keeps their first-occurrence order. */
  lemma {:induction false} KeepAvailableOrder(tokens: seq<string>, x: string, y: string)
    requires x in KeepAvailable(tokens) && y in KeepAvailable(tokens)
    requires IndexOf(KeepAvailable(tokens), x) < IndexOf(KeepAvailable(tokens), y)
    ensures IndexOf(tokens, x) < IndexOf(tokens, y)
    decreases |tokens|
  {
    var p, z := tokens[..|tokens| - 1], tokens[|tokens| - 1];
    assert tokens == p + [z];
    var kp := KeepAvailable(p);
    var kz := if z in AvailablePlatforms then [z] else [];
    assert KeepAvailable(tokens) == kp + kz;
    IndexOfAppend(kp, kz, x);
    IndexOfAppend(kp, kz, y);
    IndexOfAppend(p, [z], x);
    IndexOfAppend(p, [z], y);
    if x in kp && y in kp {
      KeepAvailableOrder(p, x, y);
    }
  }

  /** Every resolved platform is one of the available platforms or a fallback. */
  lemma ResolvedWithinTargets(request: Option<string>, nodePlatform: string)
    ensures ResolvedPlatforms(request, nodePlatform).Ok? ==>
      forall x :: x in ResolvedPlatforms(request, nodePlatform).value ==> x in ResolvableTargets
  {
  }

  /** A request naming platforms twice keeps the first occurrences only. Here and in
      the examples below the literal input is a parameter fixed by `requires`: the
      verifier unfolds recursive functions on literal arguments without bound, and a
      parameter keeps it to the steps the proof names. */
  lemma DuplicatesDropped(request: string, nodePlatform: string)
    requires request == "linux,linux,osx"
    ensures ResolvedPlatforms(Some(request), nodePlatform) == Ok(["linux", "osx"])
  {
    var tokens := ["linux", "linux", "osx"];
    assert Join(tokens, ',') == request;
    SplitJoin(tokens, ',');
    DuplicateTokensResolve(tokens);
  }

  /** The tokens of `DuplicatesDropped`, a parameter for the same reason. */
  lemma DuplicateTokensResolve(tokens: seq<string>)
    requires tokens == ["linux", "linux", "osx"]
    ensures Resolve(tokens) == ["linux", "osx"]
  {
    KeepAllAvailable(tokens);
    assert Fallbacks(tokens) == [];
    assert tokens + [] == tokens;
    UniqueRepeatedHead(tokens[0], tokens[2]);
  }

  /** Deduplicating `[a, a, b]` with `a != b` gives `[a, b]`. */
  lemma UniqueRepeatedHead(a: string, b: string)
    requires a != b
    ensures Unique([a, a, b]) == [a, b]
  {
    assert [a, a, b][..2] == [a, a];
    assert [a, a][..1] == [a];
    UniqueSingleton(a);
  }

  /** Tokens that are all available platforms are all kept. */
  lemma {:induction false} KeepAllAvailable(tokens: seq<string>)
    requires forall k :: 0 <= k < |tokens| ==> tokens[k] in AvailablePlatforms
    ensures KeepAvailable(tokens) == tokens
    decreases |tokens|
  {
    if tokens != [] {
      KeepAllAvailable(tokens[..|tokens| - 1]);
      assert tokens == tokens[..|tokens| - 1] + [tokens[|tokens| - 1]];
    }
  }

  /** `win64` alone resolves to the `win32` fallback, not to `win`. */
  lemma Win64FallsBack(request: string, nodePlatform: string)
    requires request == "win64"
    ensures ResolvedPlatforms(Some(request), nodePlatform) == Ok(["win32"])
  {
    SplitNoSeparator(request, ',');
    LoneWin64Resolves([request]);
  }

  /** The tokens of `Win64FallsBack`, a parameter for the same reason. */
  lemma LoneWin64Resolves(tokens: seq<string>)
    requires tokens == ["win64"]
    ensures Resolve(tokens) == ["win32"]
  {
    Win64NotAvailable();
    assert tokens[..0] == [];
    assert KeepAvailable(tokens) == [];
    assert Fallbacks(tokens) == ["win32"];
    assert [] + ["win32"] == ["win32"];
    UniqueSingleton("win32");
  }

  /** The 64-bit variants are not available platforms themselves. */
  lemma Win64NotAvailable()
    ensures "win64" !in AvailablePlatforms && "osx64" !in AvailablePlatforms
  {
    assert |"win64"| != |"win"| && "win64"[0] != "linux"[0] && "win64"[0] != "osx"[0];
    assert |"osx64"| != |"osx"| && "osx64"[0] != "linux"[0] && "osx64"[0] != "win"[0];
  }

  /** A single token that is no platform, no 64-bit variant and not `all` resolves to
      the empty list, which `run` then rejects. */
  lemma NothingAvailable(request: string, nodePlatform: string)
    requires request != "" && ',' !in request
    requires request !in AvailablePlatforms && request != "all" && request != "win64" && request != "osx64"
    ensures ResolvedPlatforms(Some(request), nodePlatform) == Ok([])
  {
    SplitNoSeparator(request, ',');
    var tokens := [request];
    assert tokens[..0] == [];
    assert KeepAvailable(tokens) == [];
    assert Fallbacks(tokens) == [];
  }
}
