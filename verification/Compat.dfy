/** Version negotiation between two peers: one surface at a time, then a list of required surfaces. */
module Compat {
  import opened Wrappers

  type Surface = string
  type Versions = map<Surface, nat>

  datatype NegotiationError =
    | NotDeclared(surface: Surface, missingLocal: bool)
    | Refused(surface: Surface, local: nat, remote: nat, window: nat)

  function Diff(a: nat, b: nat): nat {
    if a >= b then a - b else b - a
  }

  function NegotiateSurface(surface: Surface, local: nat, remote: nat, window: nat)
    : Result<Unit, NegotiationError>
  {
    if Diff(local, remote) <= window then Ok(Unit) else Err(Refused(surface, local, remote, window))
  }

  /** Both sides declare the surface and their versions lie within the window. */
  predicate Agree(local: Versions, remote: Versions, surface: Surface, window: nat) {
    && surface in local && surface in remote
    && local[surface] <= remote[surface] + window
    && remote[surface] <= local[surface] + window
  }

  /** What a refusal at `surface` must report: a missing local declaration first, then a missing
      remote one, then the two versions that are too far apart. */
  predicate Explains(e: NegotiationError, local: Versions, remote: Versions, surface: Surface, window: nat) {
    e.surface == surface &&
    match e
    case NotDeclared(_, missingLocal) =>
      if missingLocal then surface !in local else surface in local && surface !in remote
    case Refused(_, l, r, w) =>
      surface in local && surface in remote && l == local[surface] && r == remote[surface] && w == window
  }

  /** Negotiates every required surface in order, stopping at the first failure. */
  method NegotiateAll(local: Versions, remote: Versions, required: seq<Surface>, window: nat)
    returns (r: Result<Unit, NegotiationError>)
    ensures r == Negotiated(local, remote, required, window)
    ensures r.Ok? <==> forall i :: 0 <= i < |required| ==> Agree(local, remote, required[i], window)
    ensures r.Err? ==> exists i ::
              && 0 <= i < |required|
              && !Agree(local, remote, required[i], window)
              && (forall j :: 0 <= j < i ==> Agree(local, remote, required[j], window))
              && Explains(r.error, local, remote, required[i], window)
  {
    for i := 0 to |required|
      invariant forall j :: 0 <= j < i ==> Agree(local, remote, required[j], window)
      invariant Negotiated(local, remote, required, window) == Negotiated(local, remote, required[i..], window)
    {
      var surface := required[i];
      assert required[i..][1..] == required[i + 1..];
      if surface !in local {
        return Err(NotDeclared(surface, true));
      }
      if surface !in remote {
        return Err(NotDeclared(surface, false));
      }
      var outcome := NegotiateSurface(surface, local[surface], remote[surface], window);
      if outcome.Err? {
        return outcome;
      }
    }
    return Ok(Unit);
  }

  /** The outcome of `NegotiateAll` as a value. */
  function Negotiated(local: Versions, remote: Versions, required: seq<Surface>, window: nat)
    : (r: Result<Unit, NegotiationError>)
  {
    if required == [] then Ok(Unit)
    else if required[0] !in local then Err(NotDeclared(required[0], true))
    else if required[0] !in remote then Err(NotDeclared(required[0], false))
    else
      var first := NegotiateSurface(required[0], local[required[0]], remote[required[0]], window);
      if first.Err? then first else Negotiated(local, remote, required[1..], window)
  }

  /** Both sides declare every required surface within the window. */
  ghost predicate AgreeOnAll(local: Versions, remote: Versions, required: seq<Surface>, window: nat) {
    forall i :: 0 <= i < |required| ==> Agree(local, remote, required[i], window)
  }

  /** The refusal explains the first required surface the two sides do not agree on. */
  ghost predicate ExplainsFirst(e: NegotiationError, local: Versions, remote: Versions, required: seq<Surface>, window: nat, i: nat) {
    && i < |required| && !Agree(local, remote, required[i], window)
    && (forall j :: 0 <= j < i ==> Agree(local, remote, required[j], window))
    && Explains(e, local, remote, required[i], window)
  }

  lemma {:induction false} NegotiatedIff(local: Versions, remote: Versions, required: seq<Surface>, window: nat)
    ensures var r := Negotiated(local, remote, required, window);
            && (r.Ok? <==> AgreeOnAll(local, remote, required, window))
            && (r.Err? ==> exists i: nat :: ExplainsFirst(r.error, local, remote, required, window, i))
  {
    if required != [] {
      var rest := required[1..];
      NegotiatedIff(local, remote, rest, window);
      assert forall j :: 1 <= j < |required| ==> required[j] == rest[j - 1];
      var r := Negotiated(local, remote, required, window);
      if !Agree(local, remote, required[0], window) {
        assert ExplainsFirst(r.error, local, remote, required, window, 0);
      } else if r.Err? {
        var i: nat :| ExplainsFirst(r.error, local, remote, rest, window, i);
        assert ExplainsFirst(r.error, local, remote, required, window, i + 1);
      } else {
        assert AgreeOnAll(local, remote, rest, window);
      }
    }
  }
}
