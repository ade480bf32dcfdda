/**
 The two bounded sets that keep a turn from reporting the same app or plugin
 twice (codex-rs/analytics/src/client.rs).  A full set is emptied before the
 next key goes in, so duplicates come back; how often is what is proved here.
 */
module Dedupe {
  import opened Options

  const MAX_KEYS := 4096

  /** A turn and the connector or plugin used in it. */
  type Key = (string, string)

  /** A call without an id leaves the app set alone but may empty the plugin set. */
  datatype Site = AppUsed | PluginUsed

  datatype Outcome = Outcome(emitted: set<Key>, enqueue: bool, cleared: bool)

  function Call(site: Site, emitted: set<Key>, key: Option<Key>): Outcome {
    if site.AppUsed? && key.None? then Outcome(emitted, true, false)
    else
      var full := |emitted| >= MAX_KEYS;
      var kept := if full then {} else emitted;
      match key
      case None => Outcome(kept, true, full)
      case Some(k) => Outcome(kept + {k}, k !in kept, full)
  }

  class EmittedKeys {
    var appUsed: set<Key>
    var pluginUsed: set<Key>

    constructor ()
      ensures appUsed == {} && pluginUsed == {}
    {
      appUsed, pluginUsed := {}, {};
    }

    method ShouldEnqueueAppUsed(turnId: string, connectorId: Option<string>) returns (enqueue: bool)
      modifies this`appUsed
      ensures var key := if connectorId.Some? then Some((turnId, connectorId.value)) else None;
              var out := Call(AppUsed, old(appUsed), key);
              appUsed == out.emitted && enqueue == out.enqueue
    {
      if connectorId.None? {
        return true;
      }
      if |appUsed| >= MAX_KEYS {
        appUsed := {};
      }
      var key := (turnId, connectorId.value);
      enqueue := key !in appUsed;
      appUsed := appUsed + {key};
    }

    method ShouldEnqueuePluginUsed(turnId: string, pluginId: Option<string>, remotePluginId: Option<string>)
      returns (enqueue: bool)
      modifies this`pluginUsed
      ensures var id := if pluginId.Some? then pluginId else remotePluginId;
              var key := if id.Some? then Some((turnId, id.value)) else None;
              var out := Call(PluginUsed, old(pluginUsed), key);
              pluginUsed == out.emitted && enqueue == out.enqueue
    {
      if |pluginUsed| >= MAX_KEYS {
        pluginUsed := {};
      }
      var id := if pluginId.Some? then pluginId else remotePluginId;
      if id.None? {
        return true;
      }
      var key := (turnId, id.value);
      enqueue := key !in pluginUsed;
      pluginUsed := pluginUsed + {key};
    }
  }

  /** A whole life of one set: what it holds, and an outside count of what happened. */
  datatype Life = Life(emitted: set<Key>, clears: nat, since: nat, accepted: seq<Key>)

  function After(site: Site, calls: seq<Option<Key>>): Life {
    if calls == [] then Life({}, 0, 0, [])
    else
      var n := |calls| - 1;
      var before := After(site, calls[..n]);
      var out := Call(site, before.emitted, calls[n]);
      Life(out.emitted,
           before.clears + (if out.cleared then 1 else 0),
           if out.cleared then n else before.since,
           before.accepted + (if out.enqueue && calls[n].Some? then [calls[n].value] else []))
  }

  function Count(keys: seq<Key>, key: Key): nat {
    multiset(keys)[key]
  }

  /** One acceptance fills one place of the set, and only a clear frees places. */
  lemma {:induction false} AcceptancesFillEpochs(site: Site, calls: seq<Option<Key>>)
    ensures var life := After(site, calls);
            && |life.emitted| <= MAX_KEYS
            && |life.accepted| == MAX_KEYS * life.clears + |life.emitted|
  {
    if calls == [] {
    } else {
      var n := |calls| - 1;
      AcceptancesFillEpochs(site, calls[..n]);
      var before, life := After(site, calls[..n]), After(site, calls);
      if calls[n].Some? {
        var kept := if |before.emitted| >= MAX_KEYS then {} else before.emitted;
        assert calls[n].value in kept ==> kept + {calls[n].value} == kept;
      }
    }
  }

  /** Within one epoch a key is accepted once. */
  lemma {:induction false} OncePerEpoch(site: Site, calls: seq<Option<Key>>, key: Key)
    ensures var life := After(site, calls);
            Count(life.accepted, key) <= life.clears + (if key in life.emitted then 1 else 0)
  {
    if calls == [] {
    } else {
      OncePerEpoch(site, calls[..|calls| - 1], key);
    }
  }

  /** Of T acceptances a single key accounts for at most T / 4096, rounded up. */
  lemma RepeatsAreBounded(site: Site, calls: seq<Option<Key>>, key: Key)
    ensures var life := After(site, calls);
            Count(life.accepted, key) <= (|life.accepted| + MAX_KEYS - 1) / MAX_KEYS
  {
    AcceptancesFillEpochs(site, calls);
    OncePerEpoch(site, calls, key);
    var life := After(site, calls);
    if key in life.emitted {
      assert |life.emitted| > 0;
    }
  }

  lemma ExtendTail(calls: seq<Option<Key>>, from: nat, call: Option<Key>)
    requires from < |calls|
    ensures call in calls[from..] <==> call in calls[..|calls| - 1][from..] || call == calls[|calls| - 1]
  {
    assert calls[from..] == calls[..|calls| - 1][from..] + [calls[|calls| - 1]];
  }

  /** The set is exactly the keys called for since the last clear. */
  lemma {:induction false} HoldsTheEpoch(site: Site, calls: seq<Option<Key>>, key: Key)
    ensures After(site, calls).since <= |calls|
    ensures After(site, calls).clears == 0 ==> After(site, calls).since == 0
    ensures key in After(site, calls).emitted <==> Some(key) in calls[After(site, calls).since..]
  {
    if calls == [] {
    } else {
      var n := |calls| - 1;
      var before := After(site, calls[..n]);
      HoldsTheEpoch(site, calls[..n], key);
      if Call(site, before.emitted, calls[n]).cleared {
        assert calls[n..] == [calls[n]];
      } else {
        ExtendTail(calls, before.since, Some(key));
      }
    }
  }

  /** A keyed call passes exactly when its key is new to the epoch or opens the next one. */
  lemma PassesExactlyWhenNew(site: Site, calls: seq<Option<Key>>, key: Key)
    ensures After(site, calls).since <= |calls|
    ensures Call(site, After(site, calls).emitted, Some(key)).enqueue <==>
            |After(site, calls).emitted| == MAX_KEYS || Some(key) !in calls[After(site, calls).since..]
  {
    AcceptancesFillEpochs(site, calls);
    HoldsTheEpoch(site, calls, key);
  }
}
