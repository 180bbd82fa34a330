/** The listening Wings: a new port or scheme is configured at once, but bound only when Wings is restarted, and until
    then pushes go where nobody listens. */
module WingsListener {
  import opened Common
  import W = WingsConfig

  /** `bound` is the configuration Wings was last started with. */
  datatype State = State(link: W.Link, bound: W.Config)

  datatype Event = Edited(edit: W.Edit) | Restarted

  predicate Usable(s: State) {
    W.Usable(s.link)
  }

  function Next(s: State, e: Event): (r: State)
    requires Usable(s)
    ensures Usable(r)
  {
    match e
    case Edited(edit) => s.(link := W.Next(s.link, edit))
    case Restarted => s.(bound := s.link.wings)
  }

  function After(s: State, events: seq<Event>): (r: State)
    requires Usable(s)
    ensures Usable(r)
  {
    if events == [] then s else Next(After(s, events[..|events| - 1]), events[|events| - 1])
  }

  /** The edits of a history. */
  function Edits(events: seq<Event>): seq<W.Edit> {
    if events == [] then []
    else
      var last, init := events[|events| - 1], Edits(events[..|events| - 1]);
      if last.Edited? then init + [last.edit] else init
  }

  /** How much of the history lies before the latest restart, that restart included. */
  function Boot(events: seq<Event>): (n: nat)
    ensures n <= |events|
  {
    if events == [] then 0
    else if events[|events| - 1].Restarted? then |events|
    else Boot(events[..|events| - 1])
  }

  /** A proxy before Wings speaks TLS in its place. */
  predicate Proxied(n: W.Node)
    requires W.Complete(n)
  {
    n.fields[W.BehindProxy] == W.Bool(true)
  }

  /** A push sent now, to the port and in the scheme of the panel's row, meets the listening Wings. */
  predicate Hears(s: State)
    requires Usable(s)
  {
    && W.LeafOf(s.bound, W.ApiPort) == Some(W.View(s.link.node, W.ApiPort))
    && (Proxied(s.link.node) || W.LeafOf(s.bound, W.ApiSslEnabled) == Some(W.View(s.link.node, W.ApiSslEnabled)))
  }

  lemma {:induction false} EditsDecide(s: State, events: seq<Event>)
    requires Usable(s)
    ensures After(s, events).link == W.After(s.link, Edits(events))
  {
    if events == [] {
    } else {
      var last, init := events[|events| - 1], events[..|events| - 1];
      EditsDecide(s, init);
      if last.Edited? {
        assert Edits(events)[..|Edits(events)| - 1] == Edits(init);
      }
    }
  }

  /** What is bound is what was configured at the latest restart, or at the start. */
  lemma {:induction false} BoundAtBoot(s: State, events: seq<Event>)
    requires Usable(s) && s.bound == s.link.wings
    ensures After(s, events).bound == After(s, events[..Boot(events)]).link.wings
  {
    if events == [] {
    } else if events[|events| - 1].Restarted? {
      assert events[..|events|] == events;
    } else {
      var init := events[..|events| - 1];
      BoundAtBoot(s, init);
      assert init[..Boot(init)] == events[..Boot(events)];
    }
  }

  /** Over any run of edits and restarts, a push meets the listening Wings exactly when the panel's port, and before
      an unproxied Wings its scheme, are what they were at the latest restart, provided Wings agreed on both then. */
  lemma PushIsHeardIff(s: State, events: seq<Event>)
    requires Usable(s) && s.bound == s.link.wings
    requires var before := Edits(events[..Boot(events)]);
             && (forall i :: 0 <= i < |before| ==> W.Honest(before[i].exchange))
             && W.LatestApplied(s.link, before, W.ApiPort) && W.LatestApplied(s.link, before, W.ApiSslEnabled)
    ensures var boot, now := After(s, events[..Boot(events)]).link.node, After(s, events).link.node;
            Hears(After(s, events))
            <==> && now.fields[W.DaemonListen] == boot.fields[W.DaemonListen]
                 && (Proxied(now) || W.View(now, W.ApiSslEnabled) == W.View(boot, W.ApiSslEnabled))
  {
    var before := events[..Boot(events)];
    BoundAtBoot(s, events);
    EditsDecide(s, before);
    W.AppliedLeavesAgree(s.link, Edits(before), W.ApiPort);
    W.AppliedLeavesAgree(s.link, Edits(before), W.ApiSslEnabled);
  }

  /** Wings takes only what it hears. */
  predicate Plausible(s: State, e: Event)
    requires Usable(s)
  {
    e.Edited? && e.edit.exchange.merged ==> Hears(s)
  }

  /** An edit that leaves the address alone. */
  predicate SameAddress(n: W.Node, e: Event)
    requires W.Complete(n)
  {
    e.Edited? && W.Changed(n, e.edit.values) !! {W.DaemonListen, W.Scheme, W.BehindProxy}
  }

  predicate Stranded(s: State, events: seq<Event>)
    requires Usable(s)
  {
    events != [] ==>
      var last, init := events[|events| - 1], events[..|events| - 1];
      Stranded(s, init) && Plausible(After(s, init), last) && SameAddress(After(s, init).link.node, last)
  }

  lemma AddressStays(s: State, e: Event)
    requires Usable(s) && !Hears(s) && Plausible(s, e) && SameAddress(s.link.node, e)
    ensures !Hears(Next(s, e)) && Next(s, e).link.wings == s.link.wings && Next(s, e).bound == s.bound
  {
    var n, changed := s.link.node, W.Changed(s.link.node, e.edit.values);
    var m := W.Written(n, e.edit.values);
    forall f | f in {W.DaemonListen, W.Scheme, W.BehindProxy} ensures m.fields[f] == n.fields[f] {
      assert f !in changed;
    }
  }

  /** Once pushes are not heard, as after an applied move of the port, no edit reaches Wings any more until it is
      restarted or the address is moved back: its configuration stands still while the panel's goes on. */
  lemma {:induction false} NothingArrives(s: State, events: seq<Event>)
    requires Usable(s) && !Hears(s) && Stranded(s, events)
    ensures var end := After(s, events);
            !Hears(end) && end.link.wings == s.link.wings && end.bound == s.bound
  {
    if events == [] {
    } else {
      var init := events[..|events| - 1];
      NothingArrives(s, init);
      AddressStays(After(s, init), events[|events| - 1]);
    }
  }

  /** An applied move of the port is such a moment. */
  lemma MovedPortIsNotHeard(s: State, e: W.Edit)
    requires Usable(s) && Hears(s) && e.exchange.merged && W.DaemonListen in W.Changed(s.link.node, e.values)
    ensures !Hears(Next(s, Edited(e)))
    ensures W.AgreesOn(Next(s, Edited(e)).link, W.ApiPort)
  {
    W.PushedLeaf(s.link.wings, W.Written(s.link.node, e.values), W.Changed(s.link.node, e.values), W.ApiPort);
  }

  // ----- What takes effect at once -----

  /** The value Wings works with: the upload limit is read at every upload, all else when Wings starts. */
  function InForce(s: State, k: W.Key): Option<W.Value> {
    if k == W.ApiUploadLimit then W.LeafOf(s.link.wings, k) else W.LeafOf(s.bound, k)
  }

  /** Wings works with what the panel says. */
  predicate TakesEffect(s: State, k: W.Key)
    requires Usable(s) && W.Derived(k)
  {
    InForce(s, k) == Some(W.View(s.link.node, k))
  }

  lemma TakesEffectIff(s: State, e: W.Edit, k: W.Key)
    requires Usable(s) && s.bound == s.link.wings && e.exchange.merged && W.Derived(k) && TakesEffect(s, k)
    ensures TakesEffect(Next(s, Edited(e)), k)
       <==> k == W.ApiUploadLimit || W.View(W.Written(s.link.node, e.values), k) == W.View(s.link.node, k)
  {
    var n, m, changed := s.link.node, W.Written(s.link.node, e.values), W.Changed(s.link.node, e.values);
    W.PushedLeaf(s.link.wings, m, changed, k);
    if !W.Touched(changed, k) {
      assert W.AgreeOutside(n, m, changed);
      W.ViewIsStable(n, m, changed, k);
    }
  }

  /** From a Wings that works with what the panel says, an edit it takes has all its effect at once exactly when it
      changes no column that asks for a restart, or just changes the scheme or the proxy so that TLS stays as it is. */
  lemma RestartIsAskedIff(s: State, e: W.Edit)
    requires Usable(s) && s.bound == s.link.wings && e.exchange.merged
    requires forall k :: W.Derived(k) ==> TakesEffect(s, k)
    ensures var n, m := s.link.node, W.Written(s.link.node, e.values);
            var asked := W.Changed(n, e.values) * W.RESTART_REQUIRED;
            (forall k :: W.Derived(k) ==> TakesEffect(Next(s, Edited(e)), k))
            <==> || asked == {}
                 || (asked <= {W.Scheme, W.BehindProxy} && W.View(m, W.ApiSslEnabled) == W.View(n, W.ApiSslEnabled))
    ensures Next(Next(s, Edited(e)), Restarted).bound == Next(s, Edited(e)).link.wings
  {
    var n, m, changed := s.link.node, W.Written(s.link.node, e.values), W.Changed(s.link.node, e.values);
    forall k | W.Derived(k)
      ensures TakesEffect(Next(s, Edited(e)), k) <==> k == W.ApiUploadLimit || W.View(m, k) == W.View(n, k)
    {
      TakesEffectIff(s, e, k);
    }
    AskedColumns(n, e.values);
    assert W.Derived(W.ApiPort) && W.Derived(W.SystemData) && W.Derived(W.SystemSftpPort)
        && W.Derived(W.ApiSslEnabled);
  }

  lemma AskedColumns(n: W.Node, values: map<W.Field, W.Value>)
    requires W.Complete(n)
    ensures var m, asked := W.Written(n, values), W.Changed(n, values) * W.RESTART_REQUIRED;
            && (asked <= {W.Scheme, W.BehindProxy}
                <==> && W.View(m, W.ApiPort) == W.View(n, W.ApiPort)
                     && W.View(m, W.SystemData) == W.View(n, W.SystemData)
                     && W.View(m, W.SystemSftpPort) == W.View(n, W.SystemSftpPort))
            && (asked == {} ==> W.View(m, W.ApiSslEnabled) == W.View(n, W.ApiSslEnabled))
  {
    var m, asked := W.Written(n, values), W.Changed(n, values) * W.RESTART_REQUIRED;
    assert forall f: W.Field :: f in asked <==> f in W.RESTART_REQUIRED && m.fields[f] != n.fields[f];
  }
}
