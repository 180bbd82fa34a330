/** Registration over two requests: the list is validated by the first and recorded by the second, with
    anything in between. And which agreements a history lets into the register list. */
module ConsentRuns {
  import opened Common
  import opened Consent

  // ----- From the form to the verified address -----

  predicate NeverVerifies(events: seq<Event>, ticket: int) {
    forall i :: 0 <= i < |events| && events[i].Verified? ==> events[i].ticket != ticket
  }

  /** A version of the agreement is published by bump. */
  predicate Bumps(events: seq<Event>, id: int) {
    exists i :: 0 <= i < |events| && events[i].Published? && events[i].bump && events[i].id == id
  }

  lemma BumpsCons(events: seq<Event>, id: int)
    requires events != []
    ensures Bumps(events, id) <==>
              (events[0].Published? && events[0].bump && events[0].id == id) || Bumps(events[1..], id)
  {
    var rest := events[1..];
    if Bumps(events, id) {
      var i :| 0 <= i < |events| && events[i].Published? && events[i].bump && events[i].id == id;
      assert i > 0 ==> rest[i - 1] == events[i];
    }
    if Bumps(rest, id) {
      var i :| 0 <= i < |rest| && rest[i].Published? && rest[i].bump && rest[i].id == id;
      assert events[i + 1] == rest[i];
    }
  }

  /** A validated list waits unchanged for its address to be verified. */
  lemma {:induction false} TicketWaits(s: State, events: seq<Event>, s': State, ticket: int)
    requires Run(s, events, s') && ticket in s.tickets && NeverVerifies(events, ticket)
    ensures ticket in s'.tickets && s'.tickets[ticket] == s.tickets[ticket]
    decreases |events|
  {
    if events == [] {
    } else {
      assert forall i :: 0 <= i < |events[1..]| ==> events[1..][i] == events[i + 1];
      TicketWaits(Next(s, events[0]), events[1..], s', ticket);
    }
  }

  lemma StepMovesVersion(s: State, e: Event, id: int)
    requires Invariant(s) && Enabled(s, e) && id in s.agreements
    ensures id in Next(s, e).agreements
    ensures Next(s, e).agreements[id].currentVersion
         == s.agreements[id].currentVersion + if e.Published? && e.bump && e.id == id then 1 else 0
  {
    if e.Published? && e.bump && e.id == id {
      assert VersionsExact(s, id);
      MaxOfExact(s.versions[id]);
    }
  }

  /** The current version of an agreement grows at its bumps, and only there. */
  lemma {:induction false} VersionGrowsIff(s: State, events: seq<Event>, s': State, id: int)
    requires Invariant(s) && Run(s, events, s') && id in s.agreements
    ensures id in s'.agreements && s'.agreements[id].currentVersion >= s.agreements[id].currentVersion
    ensures s'.agreements[id].currentVersion > s.agreements[id].currentVersion <==> Bumps(events, id)
    decreases |events|
  {
    if events == [] {
    } else {
      var next := Next(s, events[0]);
      BumpsCons(events, id);
      StepMovesVersion(s, events[0], id);
      StepKeepsInvariant(s, events[0]);
      VersionGrowsIff(next, events[1..], s', id);
    }
  }

  /** Recording a list takes away what it accepts in the current version, and nothing else. */
  lemma RecordingClears(s: State, user: int, items: seq<Item>, id: int)
    requires Invariant(s) && TicketSound(s, items)
    ensures Pending(Recorded(s, user, items), user, id)
       <==> Pending(s, user, id) && Item(id, s.agreements[id].currentVersion) !in items
  {
    ValidatedListRecords(s, user, items);
    var more := NewRows(s, user, items);
    MaxAcceptedGrows(s.acceptances, more, user, id);
    if Pending(s, user, id) {
      var current := s.agreements[id].currentVersion;
      if Item(id, current) in items {
        var i :| 0 <= i < |items| && items[i] == Item(id, current);
        assert HasRow(s.acceptances + more, user, items[i]);
      } else {
        UnlistedStaysBehind(s, user, items, id);
      }
    }
  }

  lemma UnlistedStaysBehind(s: State, user: int, items: seq<Item>, id: int)
    requires Invariant(s) && TicketSound(s, items) && Pending(s, user, id)
    requires Item(id, s.agreements[id].currentVersion) !in items
    ensures MaxAccepted(s.acceptances + NewRows(s, user, items), user, id) < s.agreements[id].currentVersion
  {
    var more := NewRows(s, user, items);
    var m := MaxAccepted(s.acceptances + more, user, id);
    if m > 0 {
      RowsAppend(s.acceptances, more, user, Item(id, m));
      NewRowWasListed(s, user, items, id, m);
    }
  }

  lemma NewRowWasListed(s: State, user: int, items: seq<Item>, id: int, m: int)
    requires Invariant(s) && TicketSound(s, items) && id in s.agreements
    requires HasRow(s.acceptances, user, Item(id, m)) || HasRow(NewRows(s, user, items), user, Item(id, m))
    ensures m <= MaxAccepted(s.acceptances, user, id)
            || (Item(id, m) in items && m <= s.agreements[id].currentVersion)
  {
    NewRowsAre(s, user, items);
  }

  /** A form is accepted, anything happens but the verification of its address, and then that: what the user has
      pending is what was pending anyway and was either not asked of the form or has been bumped since. */
  lemma RegistrationLeavesPendingIff(s: State, ticket: int, items: seq<Item>, listing: seq<int>,
                                     events: seq<Event>, s': State, user: int, id: int)
    requires Invariant(s) && Enabled(s, Registered(ticket, items, listing)) && Accepts(s, items, listing)
    requires Run(Next(s, Registered(ticket, items, listing)), events, s') && NeverVerifies(events, ticket)
    ensures ticket in s'.tickets
    ensures Pending(Next(s', Verified(ticket, user)), user, id)
       <==> Pending(s', user, id) && (!Required(s, Register, id) || Bumps(events, id))
  {
    var sent := Next(s, Registered(ticket, items, listing));
    var list := Canonical(s, listing);
    StepKeepsInvariant(s, Registered(ticket, items, listing));
    InvariantAlwaysHolds(sent, events, s');
    TicketWaits(sent, events, s', ticket);
    assert TicketSound(s', list);
    RecordingClears(s', user, list, id);
    assert Pending(Next(s', Verified(ticket, user)), user, id) <==> Pending(Recorded(s', user, list), user, id);
    if Pending(s', user, id) {
      ListedIff(s, listing, id, s'.agreements[id].currentVersion);
      if id in s.agreements {
        VersionGrowsIff(sent, events, s', id);
      }
    }
  }

  lemma ListedIff(s: State, listing: seq<int>, id: int, version: int)
    requires Listing(s, Register, listing)
    ensures Item(id, version) in Canonical(s, listing)
       <==> Required(s, Register, id) && s.agreements[id].currentVersion == version
  {
    if Required(s, Register, id) {
      var i :| 0 <= i < |listing| && listing[i] == id;
      assert Canonical(s, listing)[i] == Item(id, s.agreements[id].currentVersion);
    }
  }

  lemma {:induction false} QuietRunAsksNothingNew(s: State, events: seq<Event>, s': State, id: int)
    requires Run(s, events, s') && Required(s', Register, id)
    requires forall i :: 0 <= i < |events| ==> Quiet(events[i])
    ensures Required(s, Register, id) && !Bumps(events, id)
    decreases |events|
  {
    if events == [] {
    } else {
      BumpsCons(events, id);
      QuietRunAsksNothingNew(Next(s, events[0]), events[1..], s', id);
    }
  }

  /** So unless an agreement is bumped or updated in between, registering leaves nothing pending. */
  lemma ConsentEmptiesPending(s: State, ticket: int, items: seq<Item>, listing: seq<int>,
                              events: seq<Event>, s': State, user: int, id: int)
    requires Invariant(s) && Enabled(s, Registered(ticket, items, listing)) && Accepts(s, items, listing)
    requires Run(Next(s, Registered(ticket, items, listing)), events, s') && NeverVerifies(events, ticket)
    requires forall i :: 0 <= i < |events| ==> Quiet(events[i])
    ensures ticket in s'.tickets && !Pending(Next(s', Verified(ticket, user)), user, id)
  {
    RegistrationLeavesPendingIff(s, ticket, items, listing, events, s', user, id);
    if Pending(s', user, id) {
      assert Required(s', Register, id);
      QuietRunAsksNothingNew(Next(s, Registered(ticket, items, listing)), events, s', id);
    }
  }

  /** An agreement is never taken away, and keeps its slug. */
  lemma {:induction false} AgreementsStay(s: State, events: seq<Event>, s': State, id: int)
    requires Run(s, events, s') && id in s.agreements
    ensures id in s'.agreements && s'.agreements[id].slug == s.agreements[id].slug
    decreases |events|
  {
    if events == [] {
    } else {
      AgreementsStay(Next(s, events[0]), events[1..], s', id);
    }
  }

  /** Whatever happens between the form and the verification, each row the verification adds is the new user's, for an
      agreement and a version that the form itself named. */
  lemma AddedRowsWereSubmitted(s: State, ticket: int, items: seq<Item>, listing: seq<int>,
                               events: seq<Event>, s': State, user: int, r: Acceptance)
    requires Invariant(s) && Enabled(s, Registered(ticket, items, listing)) && Accepts(s, items, listing)
    requires Run(Next(s, Registered(ticket, items, listing)), events, s') && NeverVerifies(events, ticket)
    requires Enabled(s', Verified(ticket, user))
    requires r in Next(s', Verified(ticket, user)).acceptances && r !in s'.acceptances
    ensures r.user == user && Item(r.agreement, r.version) in items
    ensures r.agreement in s.agreements && r.version == s.agreements[r.agreement].currentVersion
            && r.slug == s.agreements[r.agreement].slug
  {
    var sent, list := Next(s, Registered(ticket, items, listing)), Canonical(s, listing);
    TicketWaits(sent, events, s', ticket);
    NewRowsAreNew(s', user, list);
    assert IsNewRow(s', user, list, r);
    var i :| 0 <= i < |list| && list[i] == Item(r.agreement, r.version);
    LastNamesIff(items, listing[i], s.agreements[listing[i]].currentVersion);
    AgreementsStay(sent, events, s', listing[i]);
  }

  predicate SlugsDiffer(s: State) {
    forall x, y :: x in s.agreements && y in s.agreements && x != y ==> s.agreements[x].slug != s.agreements[y].slug
  }

  /** No two agreements ever have the same slug. */
  lemma {:induction false} SlugsAlwaysDiffer(s: State, events: seq<Event>, s': State)
    requires SlugsDiffer(s) && Run(s, events, s')
    ensures SlugsDiffer(s')
    decreases |events|
  {
    if events == [] {
    } else {
      SlugsAlwaysDiffer(Next(s, events[0]), events[1..], s');
    }
  }

  // ----- What gets into the register list -----

  /** An administrator's form that goes through. */
  predicate FormAccepted(s: State, e: Event) {
    match e
    case Created(_, f) => !(f.scope == "egg" && f.egg == None) && SlugFree(s, f.slug)
    case Updated(id, f) => id in s.agreements && !(f.scope == "egg" && f.egg == None)
    case _ => false
  }

  predicate FlagsOffGlobal(f: Upsert) {
    f.requireRegister && f.scope != "global"
  }

  /** Only global agreements carry the register flag. */
  predicate GlobalFlags(s: State) {
    forall id :: id in s.agreements && s.agreements[id].requireRegister ==> s.agreements[id].scope == "global"
  }

  ghost predicate GlobalFlagsThroughout(s: State, events: seq<Event>)
    decreases |events|
  {
    && GlobalFlags(s)
    && (events != [] && Enabled(s, events[0]) ==> GlobalFlagsThroughout(Next(s, events[0]), events[1..]))
  }

  /** No form that goes through flags an agreement that is not global. */
  ghost predicate GlobalForms(s: State, events: seq<Event>)
    decreases |events|
  {
    events != [] && Enabled(s, events[0]) ==>
      && (FormAccepted(s, events[0]) ==> !FlagsOffGlobal(events[0].form))
      && GlobalForms(Next(s, events[0]), events[1..])
  }

  lemma FormSetsFlags(s: State, e: Event)
    requires GlobalFlags(s) && Enabled(s, e)
    ensures GlobalFlags(Next(s, e)) <==> (FormAccepted(s, e) ==> !FlagsOffGlobal(e.form))
  {
    var s' := Next(s, e);
    if FormAccepted(s, e) {
      assert s'.agreements[e.id].scope == e.form.scope;
      assert s'.agreements[e.id].requireRegister == e.form.requireRegister;
    }
  }

  /** The queries never look at the scope, nor do the forms tie it to the flag: over every history, only global
      agreements carry the register flag exactly when no accepted form sets it on another. */
  lemma {:induction false} FlagsStayGlobalIff(s: State, events: seq<Event>, s': State)
    requires GlobalFlags(s) && Run(s, events, s')
    ensures GlobalFlagsThroughout(s, events) <==> GlobalForms(s, events)
    decreases |events|
  {
    if events == [] {
    } else {
      FormSetsFlags(s, events[0]);
      if GlobalFlags(Next(s, events[0])) {
        FlagsStayGlobalIff(Next(s, events[0]), events[1..], s');
      }
    }
  }

  /** Then whatever registration asks for is global. */
  lemma {:induction false} RegisterListIsGlobal(s: State, events: seq<Event>, s': State, listing: seq<int>, i: nat)
    requires GlobalFlags(s) && Run(s, events, s') && GlobalForms(s, events)
    requires Listing(s', Register, listing) && i < |listing|
    ensures s'.agreements[listing[i]].scope == "global"
    decreases |events|
  {
    if events == [] {
      assert listing[i] in listing;
      assert Required(s, Register, listing[i]);
    } else {
      FormSetsFlags(s, events[0]);
      RegisterListIsGlobal(Next(s, events[0]), events[1..], s', listing, i);
    }
  }

  /** As it does from the migration on. */
  lemma MigratedRegisterListIsGlobal(users: seq<int>, events: seq<Event>, s': State, listing: seq<int>, i: nat)
    requires Run(Migrated(users), events, s') && GlobalForms(Migrated(users), events)
    requires Listing(s', Register, listing) && i < |listing|
    ensures s'.agreements[listing[i]].scope == "global"
  {
    assert GlobalFlags(Migrated(users));
    RegisterListIsGlobal(Migrated(users), events, s', listing, i);
  }

  predicate LeavesTerms(e: Event, id: int) {
    !(e.Updated? && e.id == id) && !(e.Disabled? && e.id == id)
  }

  lemma {:induction false} TermsStay(s: State, events: seq<Event>, s': State, id: int)
    requires Run(s, events, s') && id in s.agreements
    requires forall i :: 0 <= i < |events| ==> LeavesTerms(events[i], id)
    ensures id in s'.agreements
    ensures var a, b := s.agreements[id], s'.agreements[id];
            && b.scope == a.scope && b.egg == a.egg && b.enabled == a.enabled && b.sortOrder == a.sortOrder
            && b.requireRegister == a.requireRegister && b.requirePurchase == a.requirePurchase
    decreases |events|
  {
    if events == [] {
    } else {
      assert LeavesTerms(events[0], id);
      TermsStay(Next(s, events[0]), events[1..], s', id);
    }
  }

  /** What a form asks for: of registering and signed-in users, or of the buyers of any egg or of one. */
  predicate FormAsks(f: Upsert, c: Context) {
    match c
    case Register => f.requireRegister
    case Reconsent => f.requireRegister
    case Purchase(egg) => f.requirePurchase && (f.scope == "global" || (f.scope == "egg" && egg.Some? && f.egg == egg))
  }

  /** From an accepted form until the terms are next changed, a list of any kind has the agreement exactly when the
      form asks for it and left it enabled, and a version has been published before or since. */
  lemma FormIsAskedIff(s: State, e: Event, events: seq<Event>, s': State, c: Context, listing: seq<int>)
    requires Invariant(s) && Enabled(s, e) && FormAccepted(s, e) && Run(Next(s, e), events, s')
    requires forall i :: 0 <= i < |events| ==> LeavesTerms(events[i], e.id)
    requires Listing(s', c, listing)
    ensures e.id in listing
       <==> && e.form.enabled && FormAsks(e.form, c)
            && (Bumps(events, e.id) || (e.Updated? && s.agreements[e.id].currentVersion > 0))
    ensures e.id in s'.agreements && s'.agreements[e.id].sortOrder == e.form.sortOrder
    ensures s'.agreements[e.id].slug == if e.Created? then e.form.slug else s.agreements[e.id].slug
  {
    StepKeepsInvariant(s, e);
    TermsStay(Next(s, e), events, s', e.id);
    VersionGrowsIff(Next(s, e), events, s', e.id);
    AgreementsStay(Next(s, e), events, s', e.id);
    if e.Updated? {
      assert VersionsExact(s, e.id);
    }
    assert e.id in listing <==> Required(s', c, e.id);
  }

  /** A disabled agreement is in no list until an update enables it again. */
  lemma DisabledIsNotAsked(s: State, id: int, events: seq<Event>, s': State, c: Context, listing: seq<int>)
    requires id in s.agreements && Run(Next(s, Disabled(id)), events, s')
    requires forall i :: 0 <= i < |events| ==> LeavesTerms(events[i], id)
    requires Listing(s', c, listing)
    ensures id !in listing
  {
    TermsStay(Next(s, Disabled(id)), events, s', id);
    assert id in listing <==> Required(s', c, id);
  }

  /** And once an update has flagged an agreement off the global scope, every later register list, until the next
      update of its terms, asks for it exactly when it was left enabled and has been published, before or since. */
  lemma OffGlobalFormIsAsked(s: State, id: int, f: Upsert, events: seq<Event>, s': State, listing: seq<int>)
    requires Invariant(s) && FormAccepted(s, Updated(id, f)) && FlagsOffGlobal(f)
    requires Run(Next(s, Updated(id, f)), events, s')
    requires forall i :: 0 <= i < |events| ==> LeavesTerms(events[i], id)
    requires Listing(s', Register, listing)
    ensures id in listing <==> f.enabled && (s.agreements[id].currentVersion > 0 || Bumps(events, id))
    ensures id in s'.agreements && s'.agreements[id].scope != "global"
  {
    FormIsAskedIff(s, Updated(id, f), events, s', Register, listing);
    TermsStay(Next(s, Updated(id, f)), events, s', id);
  }
}
