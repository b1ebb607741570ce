/** Registration of handlers with the validator and dispatch of a transaction
    to one of them (processor/processor.go, processor/worker.go). */
module Dispatch {
  import opened Common

  /** What the processor asks of a transaction handler: its family and versions. */
  datatype Handler = Handler(family: string, versions: seq<string>)

  ghost predicate Serves(h: Handler, family: string, version: string) {
    h.family == family && version in h.versions
  }

  /** `i` is the first handler, in the order they were added, that serves the pair. */
  ghost predicate IsFirstServing(handlers: seq<Handler>, family: string, version: string, i: nat) {
    && i < |handlers|
    && Serves(handlers[i], family, version)
    && forall j :: 0 <= j < i ==> !Serves(handlers[j], family, version)
  }

  /** The handler a worker runs: the first one serving the pair, if there is one. */
  function Find(handlers: seq<Handler>, family: string, version: string): (r: Option<nat>)
    ensures r.Some? ==> IsFirstServing(handlers, family, version, r.value)
    ensures r.None? ==> forall h :: h in handlers ==> !Serves(h, family, version)
  {
    if handlers == [] then None
    else if handlers[0].family == family && version in handlers[0].versions then Some(0)
    else
      match Find(handlers[1..], family, version)
      case None => None
      case Some(i) =>
        assert forall j :: 1 <= j < i + 1 ==> handlers[j] == handlers[1..][j - 1];
        Some(i + 1)
  }

  method FindHandler(handlers: seq<Handler>, family: string, version: string) returns (r: Option<nat>)
    ensures r == Find(handlers, family, version)
  {
    var i := 0;
    while i < |handlers|
      invariant 0 <= i <= |handlers|
      invariant forall j :: 0 <= j < i ==> !Serves(handlers[j], family, version)
    {
      var handler := handlers[i];
      if family == handler.family {
        var hasVersion := false;
        var k := 0;
        while k < |handler.versions| && !hasVersion
          invariant 0 <= k <= |handler.versions|
          invariant hasVersion <==> version in handler.versions[..k]
        {
          if handler.versions[k] == version {
            hasVersion := true;
          }
          k := k + 1;
        }
        assert hasVersion ==> Serves(handler, family, version);
        assert !hasVersion ==> handler.versions[..k] == handler.versions;
        if hasVersion {
          FirstServingIsFound(handlers, family, version, i);
          return Some(i);
        }
      }
      i := i + 1;
    }
    r := None;
  }

  lemma FirstServingIsFound(handlers: seq<Handler>, family: string, version: string, i: nat)
    requires IsFirstServing(handlers, family, version, i)
    ensures Find(handlers, family, version) == Some(i)
  {
    assert handlers[i] in handlers;
  }

  /** How many versions the handlers list together: one registration is sent for each. */
  ghost function VersionCount(handlers: seq<Handler>): nat {
    if handlers == [] then 0 else VersionCount(handlers[..|handlers| - 1]) + |handlers[|handlers| - 1].versions|
  }

  /** The (family, version) pairs registered with the validator, in order. */
  method Announce(handlers: seq<Handler>) returns (pairs: seq<(string, string)>)
    ensures forall p :: p in pairs <==> IsAnnounced(handlers, p.0, p.1)
    ensures |pairs| == VersionCount(handlers)
  {
    pairs := [];
    for i := 0 to |handlers|
      invariant |pairs| == VersionCount(handlers[..i])
      invariant forall p :: p in pairs <==> IsAnnounced(handlers[..i], p.0, p.1)
    {
      ghost var before := pairs;
      var h := handlers[i];
      for k := 0 to |h.versions|
        invariant forall p :: p in pairs <==> p in before || (p.0 == h.family && p.1 in h.versions[..k])
        invariant |pairs| == |before| + k
      {
        pairs := pairs + [(h.family, h.versions[k])];
        assert h.versions[..k + 1] == h.versions[..k] + [h.versions[k]];
      }
      assert h.versions[..|h.versions|] == h.versions;
      assert handlers[..i + 1] == handlers[..i] + [h] && handlers[..i + 1][..i] == handlers[..i];
      forall p
        ensures p in pairs <==> IsAnnounced(handlers[..i + 1], p.0, p.1)
      {
        AnnouncedAppend(handlers[..i], h, p.0, p.1);
      }
    }
    assert handlers[..|handlers|] == handlers;
  }

  ghost predicate IsAnnounced(handlers: seq<Handler>, family: string, version: string) {
    exists h :: h in handlers && Serves(h, family, version)
  }

  lemma AnnouncedAppend(handlers: seq<Handler>, h: Handler, family: string, version: string)
    ensures IsAnnounced(handlers + [h], family, version)
       <==> IsAnnounced(handlers, family, version) || Serves(h, family, version)
  {
    if Serves(h, family, version) {
      assert h in handlers + [h];
    }
    if g :| g in handlers && Serves(g, family, version) {
      assert g in handlers + [h];
    }
  }

  /** Exactly the announced pairs are dispatched, each to the first handler serving it. */
  lemma AnnouncedIffDispatched(handlers: seq<Handler>, family: string, version: string)
    ensures IsAnnounced(handlers, family, version)
       <==> exists i: nat :: IsFirstServing(handlers, family, version, i)
    ensures IsAnnounced(handlers, family, version) <==> Find(handlers, family, version).Some?
  {
    var r := Find(handlers, family, version);
    if r.Some? {
      assert handlers[r.value] in handlers;
    }
    if i: nat :| IsFirstServing(handlers, family, version, i) {
      assert handlers[i] in handlers;
    }
  }
}
