/**
 * The `GoogleConsentMode` controller: the gtag commands it pushes onto
 * `window.dataLayer` at start-up and on every "cookiechange" event, first as
 * functions of the cookie jars, then as the object whose methods push them.
 */
module GoogleConsent {
  import opened Wrappers
  import opened Assoc
  import opened CookieHelpers
  import opened ConsentMode

  /** The CookieYes cookie whose value carries the consent string. */
  const ConsentCookieName := "cookieyes-consent"

  /** `gtag('consent', kind, fields)`. */
  function ConsentCommand(kind: string, fields: Dict<string>): Command
  {
    [Str("consent"), Str(kind), Obj(fields)]
  }

  /** `gtag('set', field, flag)`. */
  function SetCommand(field: string, flag: bool): Command
  {
    [Str("set"), Str(field), Flag(flag)]
  }

  /** The default state: every consent type denied except security storage. */
  const DefaultConsent: Dict<string> := [
    ("ad_storage", Denied),
    ("ad_user_data", Denied),
    ("ad_personalization", Denied),
    ("analytics_storage", Denied),
    ("functionality_storage", Denied),
    ("personalization_storage", Denied),
    ("security_storage", Granted)
  ]

  /** What `setupDefaultGtagConsent` pushes, in order. */
  const DefaultCommands: seq<Command> := [
    ConsentCommand("default", DefaultConsent),
    SetCommand("ads_data_redaction", true),
    SetCommand("url_passthrough", true)
  ]

  /** `gtag('set', 'ads_data_redaction', false)`: advertising data is no longer redacted. */
  const RedactionOff: Command := SetCommand("ads_data_redaction", false)

  /** A JavaScript string value that is truthy: defined and not empty. */
  predicate Truthy(v: Option<string>)
  {
    v.Some? && v.value != ""
  }

  /** `parseCookies(jar)['cookieyes-consent']`. */
  function ConsentCookie(jar: string): Option<string>
  {
    Lookup(ParseCookies(jar), ConsentCookieName)
  }

  /** `/^(action|consent)$/`: the bookkeeping entries of the consent string. */
  predicate IsMetaCategory(category: string)
  {
    category == "action" || category == "consent"
  }

  // ---------------------------------------------------------------------
  // The commands as functions of the jars, for a mapping table

  /** A consent update, followed by `gtag('set', 'ads_data_redaction', false)` when `lift` holds. */
  function UpdateCommands(fields: Dict<string>, lift: bool): seq<Command>
  {
    [ConsentCommand("update", fields)] + (if lift then [RedactionOff] else [])
  }

  /** The commands `initialPageLoad` pushes for the jar `document.cookie` holds. */
  function InitialCommands(table: Dict<string>, jar: string): seq<Command>
  {
    var consentCookie := ConsentCookie(jar);
    if !Truthy(consentCookie) then []
    else
      var details := ParseCookieDetails(consentCookie.value);
      if !Truthy(Lookup(details, "action")) then []
      else
        UpdateCommands(MapConsent(table, details), Lookup(details, "advertisement") == Some("yes"))
  }

  /** Whether a change lifts ads data redaction. */
  predicate GrantsAdvertisement(change: Change)
  {
    change.category == "advertisement" && change.newValue == Some("yes")
  }

  /** The commands one change of the changeset produces in `updateSpecificGtagConsent`. */
  function ChangeCommand(table: Dict<string>, change: Change): seq<Command>
  {
    UpdateCommands(MapConsent(table, [(change.category, change.newValue)]), GrantsAdvertisement(change))
  }

  /** The commands `updateSpecificGtagConsent` pushes for a changeset, change by change. */
  function ChangeCommands(table: Dict<string>, changes: seq<Change>): seq<Command>
  {
    if changes == [] then []
    else ChangeCommands(table, changes[..|changes| - 1]) + ChangeCommand(table, changes[|changes| - 1])
  }

  /** The changeset the "cookiechange" listener computes from the two consent cookies. */
  function EventChanges(detail: CookieChange): seq<Change>
    requires Truthy(ConsentCookie(detail.oldValue)) && Truthy(ConsentCookie(detail.newValue))
  {
    Changes(ParseCookieDetails(ConsentCookie(detail.oldValue).value),
            ParseCookieDetails(ConsentCookie(detail.newValue).value))
  }

  /** Whether the "cookiechange" listener drops the event without reaching `updateSpecificGtagConsent`. */
  predicate Discarded(detail: CookieChange)
  {
    !Truthy(ConsentCookie(detail.oldValue)) || !Truthy(ConsentCookie(detail.newValue))
    || EventChanges(detail) == [] || IsMetaCategory(EventChanges(detail)[0].category)
  }

  /** The commands the "cookiechange" listener pushes for an event's detail. */
  function CookieChangeCommands(table: Dict<string>, detail: CookieChange): seq<Command>
  {
    if Discarded(detail) then [] else ChangeCommands(table, EventChanges(detail))
  }

  // ---------------------------------------------------------------------
  // What may reach the data layer

  /** Consent fields name only the seven consent types, each "granted" or "denied". */
  predicate ConsentFields(fields: Dict<string>)
  {
    forall g :: g in Keys(fields) ==> g in GtagKeys && Get(fields, g) in {Some(Granted), Some(Denied)}
  }

  /** The only commands the controller ever pushes. */
  predicate Permitted(cmd: Command)
  {
    (|cmd| == 3 && cmd[0] == Str("consent") && (cmd[1] == Str("default") || cmd[1] == Str("update"))
     && cmd[2].Obj? && ConsentFields(cmd[2].fields))
    || cmd == SetCommand("ads_data_redaction", true)
    || cmd == RedactionOff
    || cmd == SetCommand("url_passthrough", true)
  }

  /** The consent types the advertisement category drives. */
  const AdvertisingKeys: seq<string> := ["ad_storage", "ad_user_data", "ad_personalization"]

  /** A consent update granting all three advertising consent types. */
  predicate GrantsAdvertising(cmd: Command)
  {
    |cmd| == 3 && cmd[0] == Str("consent") && cmd[1] == Str("update") && cmd[2].Obj?
    && forall g :: g in AdvertisingKeys ==> Get(cmd[2].fields, g) == Some(Granted)
  }

  /**
   * A pushed command sequence is sound when every command is permitted and
   * redaction is only ever lifted right after an update granting all
   * advertising consent types.
   */
  predicate Sound(cmds: seq<Command>)
  {
    (forall i :: 0 <= i < |cmds| ==> Permitted(cmds[i]))
    && forall i :: 0 <= i < |cmds| && cmds[i] == RedactionOff ==> 0 < i && GrantsAdvertising(cmds[i - 1])
  }

  /** Soundness survives concatenation. */
  lemma SoundConcat(a: seq<Command>, b: seq<Command>)
    requires Sound(a) && Sound(b)
    ensures Sound(a + b)
  {
    forall i | 0 <= i < |a + b| && (a + b)[i] == RedactionOff
      ensures 0 < i && GrantsAdvertising((a + b)[i - 1])
    {
      if i >= |a| {
        assert b[i - |a|] == RedactionOff;
        assert (a + b)[i - 1] == b[i - 1 - |a|];
      }
    }
  }

  /** The default commands are sound. */
  lemma DefaultCommandsSound()
    ensures Sound(DefaultCommands)
  {
    var d := DefaultConsent;
    assert Keys(d) == GtagKeys;
    forall g | g in Keys(d) ensures Get(d, g) in {Some(Granted), Some(Denied)} {
      var i :| 0 <= i < |d| && d[i].0 == g;
      assert d[i].1 in {Granted, Denied};
      GtagKeysUnique();
      GetAt(d, i);
    }
    assert Permitted(DefaultCommands[0]);
  }

  /** The mapping only builds permitted consent fields. */
  lemma MappedFieldsPermitted(details: Details)
    ensures ConsentFields(GtagConsent(details))
  {
    GtagConsentKeys(details);
  }

  /** A consent update with permitted fields, followed by a redaction lift only if it grants advertising, is sound. */
  lemma SoundUpdate(fields: Dict<string>, lift: bool)
    requires ConsentFields(fields)
    requires lift ==> forall g :: g in AdvertisingKeys ==> Get(fields, g) == Some(Granted)
    ensures Sound(UpdateCommands(fields, lift))
  {
    var update := ConsentCommand("update", fields);
    assert update[0] != RedactionOff[0];
    assert Permitted(update);
    assert lift ==> GrantsAdvertising(update);
  }

  /** Each advertising consent type is mapped from the advertisement category. */
  lemma AdvertisingRows()
    ensures forall g :: g in AdvertisingKeys ==> (g, "advertisement") in ConsentMapping
  {
    assert ConsentMapping[0] == ("ad_storage", "advertisement");
    assert ConsentMapping[1] == ("ad_user_data", "advertisement");
    assert ConsentMapping[2] == ("ad_personalization", "advertisement");
  }

  /** An advertisement entry of "yes" grants all three advertising consent types. */
  lemma AdvertisingGranted(details: Details)
    requires Unique(Keys(details)) && Lookup(details, "advertisement") == Some("yes")
    ensures forall g :: g in AdvertisingKeys ==> Get(GtagConsent(details), g) == Some(Granted)
  {
    AdvertisingRows();
    forall g | g in AdvertisingKeys ensures Get(GtagConsent(details), g) == Some(Granted) {
      GtagConsentValues(details, g, "advertisement");
    }
  }

  /** The initial commands are sound. */
  lemma InitialCommandsSound(jar: string)
    ensures Sound(InitialCommands(ConsentMapping, jar))
  {
    var consentCookie := ConsentCookie(jar);
    if Truthy(consentCookie) {
      var details := ParseCookieDetails(consentCookie.value);
      var lift := Lookup(details, "advertisement") == Some("yes");
      MappedFieldsPermitted(details);
      if lift {
        AdvertisingGranted(details);
      }
      SoundUpdate(GtagConsent(details), lift);
    }
  }

  /** One change's commands are sound. */
  lemma ChangeCommandSound(change: Change)
    ensures Sound(ChangeCommand(ConsentMapping, change))
  {
    var details := [(change.category, change.newValue)];
    var lift := GrantsAdvertisement(change);
    MappedFieldsPermitted(details);
    if lift {
      assert Keys(details) == [change.category];
      AdvertisingGranted(details);
    }
    SoundUpdate(GtagConsent(details), lift);
  }

  /** A changeset's commands are sound. */
  lemma {:induction false} ChangeCommandsSound(changes: seq<Change>)
    ensures Sound(ChangeCommands(ConsentMapping, changes))
  {
    if changes != [] {
      var init, last := changes[..|changes| - 1], changes[|changes| - 1];
      ChangeCommandsSound(init);
      ChangeCommandSound(last);
      SoundConcat(ChangeCommands(ConsentMapping, init), ChangeCommand(ConsentMapping, last));
    }
  }

  /** The listener's commands are sound. */
  lemma CookieChangeCommandsSound(detail: CookieChange)
    ensures Sound(CookieChangeCommands(ConsentMapping, detail))
  {
    if !Discarded(detail) {
      ChangeCommandsSound(EventChanges(detail));
    }
  }

  // ---------------------------------------------------------------------
  // Properties of the command functions

  /**
   * Initial load pushes something exactly when the consent cookie and its
   * action entry are both truthy; it then pushes the update mapped from the
   * consent string, followed by a redaction lift exactly when advertisement
   * is "yes".
   */
  lemma InitialCommandsSpec(table: Dict<string>, jar: string)
    ensures var consentCookie := ConsentCookie(jar);
            InitialCommands(table, jar) != [] <==>
              Truthy(consentCookie) && Truthy(Lookup(ParseCookieDetails(consentCookie.value), "action"))
    ensures InitialCommands(table, jar) != [] ==>
              var details := ParseCookieDetails(ConsentCookie(jar).value);
              var lift := Lookup(details, "advertisement") == Some("yes");
              && InitialCommands(table, jar)[0] == ConsentCommand("update", MapConsent(table, details))
              && |InitialCommands(table, jar)| == (if lift then 2 else 1)
              && (lift ==> InitialCommands(table, jar)[1] == RedactionOff)
  {
    var consentCookie := ConsentCookie(jar);
    if Truthy(consentCookie) {
      var details := ParseCookieDetails(consentCookie.value);
      if Truthy(Lookup(details, "action")) {
        var lift := Lookup(details, "advertisement") == Some("yes");
        assert InitialCommands(table, jar) == UpdateCommands(MapConsent(table, details), lift);
      }
    }
  }

  /**
   * In the initial update, a consent type is present exactly when the
   * consent string names its category, and is then granted exactly when
   * that category is "yes".
   */
  lemma InitialConsentValues(jar: string, gtagKey: string, category: string)
    requires InitialCommands(ConsentMapping, jar) != [] && (gtagKey, category) in ConsentMapping
    ensures var details := ParseCookieDetails(ConsentCookie(jar).value);
            var fields := InitialCommands(ConsentMapping, jar)[0][2].fields;
            && (gtagKey in Keys(fields) <==> category in Keys(details))
            && (category in Keys(details) ==> Get(fields, gtagKey) == Some(Decision(Lookup(details, category))))
  {
    GtagConsentValues(ParseCookieDetails(ConsentCookie(jar).value), gtagKey, category);
  }

  /** The listener's commands split along the changeset. */
  lemma {:induction false} ChangeCommandsConcat(table: Dict<string>, a: seq<Change>, b: seq<Change>)
    ensures ChangeCommands(table, a + b) == ChangeCommands(table, a) + ChangeCommands(table, b)
  {
    if b == [] {
      assert a + b == a;
    } else {
      var init := b[..|b| - 1];
      assert (a + b)[..|a + b| - 1] == a + init;
      ChangeCommandsConcat(table, a, init);
    }
  }

  /** One more change, one more change's commands. */
  lemma ChangeCommandsStep(table: Dict<string>, changes: seq<Change>, i: nat)
    requires i < |changes|
    ensures ChangeCommands(table, changes[..i + 1]) == ChangeCommands(table, changes[..i]) + ChangeCommand(table, changes[i])
  {
    assert changes[..i + 1][..i] == changes[..i];
  }

  /** The changes lifting ads data redaction. */
  function AdvertisementGrants(changes: seq<Change>): (grants: seq<Change>)
    ensures forall c :: c in grants <==> c in changes && GrantsAdvertisement(c)
  {
    if changes == [] then []
    else
      var last := changes[|changes| - 1];
      AdvertisementGrants(changes[..|changes| - 1]) + (if GrantsAdvertisement(last) then [last] else [])
  }

  /** One update per change, plus one redaction lift per advertisement grant. */
  lemma {:induction false} ChangeCommandsCount(table: Dict<string>, changes: seq<Change>)
    ensures |ChangeCommands(table, changes)| == |changes| + |AdvertisementGrants(changes)|
  {
    if changes != [] {
      ChangeCommandsCount(table, changes[..|changes| - 1]);
    }
  }

  /**
   * The `i`th change's update sits right after the earlier changes'
   * commands; a redaction lift follows it exactly when the change grants
   * advertisement, and otherwise the next command is the next change's.
   */
  lemma ChangeCommandsAt(table: Dict<string>, changes: seq<Change>, i: nat)
    requires i < |changes|
    ensures var before := ChangeCommands(table, changes[..i]);
            |before| < |ChangeCommands(table, changes)|
            && ChangeCommands(table, changes)[|before|]
               == ConsentCommand("update", MapConsent(table, [(changes[i].category, changes[i].newValue)]))
    ensures var before := ChangeCommands(table, changes[..i]);
            GrantsAdvertisement(changes[i]) ==>
              |before| + 1 < |ChangeCommands(table, changes)| && ChangeCommands(table, changes)[|before| + 1] == RedactionOff
    ensures var before := ChangeCommands(table, changes[..i]);
            !GrantsAdvertisement(changes[i]) ==> |ChangeCommands(table, changes[..i + 1])| == |before| + 1
  {
    assert changes == changes[..i + 1] + changes[i + 1..];
    ChangeCommandsConcat(table, changes[..i + 1], changes[i + 1..]);
    ChangeCommandsStep(table, changes, i);
  }

  /**
   * The listener drops an event exactly when a consent cookie is missing or
   * empty on either side, nothing changed, or the first change is the
   * action or consent bookkeeping entry; otherwise it pushes as many
   * commands as changes plus advertisement grants.
   */
  lemma CookieChangeCommandsSpec(table: Dict<string>, detail: CookieChange)
    ensures CookieChangeCommands(table, detail) == [] <==> Discarded(detail)
    ensures !Discarded(detail) ==>
              |CookieChangeCommands(table, detail)| == |EventChanges(detail)| + |AdvertisementGrants(EventChanges(detail))|
  {
    if !Discarded(detail) {
      ChangeCommandsCount(table, EventChanges(detail));
    }
  }

  /** An event in which the consent cookie's value stays the same pushes nothing. */
  lemma SameConsentPushesNothing(table: Dict<string>, detail: CookieChange)
    requires ConsentCookie(detail.oldValue) == ConsentCookie(detail.newValue)
    ensures CookieChangeCommands(table, detail) == []
  {
    var consentCookie := ConsentCookie(detail.oldValue);
    if Truthy(consentCookie) {
      ChangesOfSame(ParseCookieDetails(consentCookie.value));
    }
  }

  // ---------------------------------------------------------------------
  // The controller

  /**
   * One page's `GoogleConsentMode`: the window it pushes onto, the change
   * detector `broadcastCookieChangeEvents` installed, its mapping table,
   * and (as ghost state) what the data layer held before it was created.
   */
  class GoogleConsentMode {
    const window: Window
    const monitor: CookieMonitor
    const consentMapping: Dict<string>
    ghost const prior: seq<Command>

    /**
     * The mapping is the CookieYes table, the data layer keeps what it held
     * before, and everything pushed since is sound.
     */
    ghost predicate Valid()
      reads this, window, monitor
    {
      consentMapping == ConsentMapping && monitor.Valid() && prior <= window.dataLayer && Sound(window.dataLayer[|prior|..])
    }

    /**
     * `new GoogleConsentMode()` on a page whose cookie jar reads `cookie`:
     * installs the change detector, pushes the defaults, then the initial
     * commands, and registers the listener.
     */
    constructor (window: Window, cookie: string)
      modifies window
      ensures Valid()
      ensures this.window == window && consentMapping == ConsentMapping && prior == old(window.dataLayer)
      ensures window.dataLayer == old(window.dataLayer) + DefaultCommands + InitialCommands(ConsentMapping, cookie)
      ensures fresh(monitor) && monitor.lastCookie == cookie && monitor.dispatched == [] && monitor.posted == []
    {
      this.window := window;
      consentMapping := ConsentMapping;
      monitor := new CookieMonitor(cookie);
      prior := window.dataLayer;
      new;
      SetupDefaultGtagConsent();
      InitialPageLoad(cookie);
      ghost var initial := InitialCommands(ConsentMapping, cookie);
      assert prior[|prior|..] == [];
      DefaultCommandsSound();
      Extend(prior, DefaultCommands);
      InitialCommandsSound(cookie);
      Extend(prior + DefaultCommands, initial);
    }

    /** Pushing sound commands keeps the data layer sound. */
    lemma Extend(before: seq<Command>, commands: seq<Command>)
      requires prior <= before && Sound(before[|prior|..]) && Sound(commands)
      ensures prior <= before + commands && Sound((before + commands)[|prior|..])
    {
      assert (before + commands)[|prior|..] == before[|prior|..] + commands;
      SoundConcat(before[|prior|..], commands);
    }

    /** `setupDefaultGtagConsent`. */
    method SetupDefaultGtagConsent()
      modifies window
      ensures window.dataLayer == old(window.dataLayer) + DefaultCommands
    {
      window.Gtag(ConsentCommand("default", DefaultConsent));
      window.Gtag(SetCommand("ads_data_redaction", true));
      window.Gtag(SetCommand("url_passthrough", true));
    }

    /** `initialPageLoad`, with `document.cookie` reading `cookie`. */
    method InitialPageLoad(cookie: string)
      modifies window
      ensures window.dataLayer == old(window.dataLayer) + InitialCommands(consentMapping, cookie)
    {
      var consentCookie := ConsentCookie(cookie);
      if !Truthy(consentCookie) {
        return;
      }
      var consentDetails := ParseCookieDetails(consentCookie.value);
      if !Truthy(Lookup(consentDetails, "action")) {
        return;
      }
      var gtagConsent := MatchConsentToGtag(consentDetails);
      PushConsentUpdate(gtagConsent, Lookup(consentDetails, "advertisement") == Some("yes"));
    }

    /**
     * `gtag('consent', 'update', gtagConsent)`, then, when advertisement was
     * accepted, `gtag('set', 'ads_data_redaction', false)`.
     */
    method PushConsentUpdate(gtagConsent: Dict<string>, lift: bool)
      modifies window
      ensures window.dataLayer == old(window.dataLayer) + UpdateCommands(gtagConsent, lift)
    {
      ghost var before := window.dataLayer;
      var update := ConsentCommand("update", gtagConsent);
      window.Gtag(update);
      if lift {
        window.Gtag(RedactionOff);
        assert before + [update] + [RedactionOff] == before + ([update] + [RedactionOff]);
      }
    }

    /** `matchCookieYesConsentToGtag`: each entry, in order, assigns its decision to its category's gtag keys. */
    method MatchConsentToGtag(consentDetails: Details) returns (gtagConsent: Dict<string>)
      ensures gtagConsent == MapConsent(consentMapping, consentDetails)
    {
      gtagConsent := [];
      var i := 0;
      while i < |consentDetails|
        invariant 0 <= i <= |consentDetails|
        invariant gtagConsent == MapConsent(consentMapping, consentDetails[..i])
      {
        var (cookieYesKey, cookieYesKeyValue) := consentDetails[i];
        var matchedGtagKeys := KeysMappedTo(consentMapping, cookieYesKey);
        var decision := if cookieYesKeyValue == Some("yes") then Granted else Denied;
        gtagConsent := AssignDecision(gtagConsent, matchedGtagKeys, decision);
        MapConsentStep(consentMapping, consentDetails, i);
        i := i + 1;
      }
      assert consentDetails[..i] == consentDetails;
    }

    /** `matchedGtagKeys.forEach(gtagKey => { gtagConsent[gtagKey] = decision; })`. */
    method AssignDecision(gtagConsent: Dict<string>, matchedGtagKeys: seq<string>, decision: string)
      returns (updated: Dict<string>)
      ensures updated == AssignAll(gtagConsent, matchedGtagKeys, decision)
    {
      updated := gtagConsent;
      assert matchedGtagKeys[..0] == [];
      var j := 0;
      while j < |matchedGtagKeys|
        invariant 0 <= j <= |matchedGtagKeys|
        invariant updated == AssignAll(gtagConsent, matchedGtagKeys[..j], decision)
      {
        AssignAllStep(gtagConsent, matchedGtagKeys, j, decision);
        updated := Put(updated, matchedGtagKeys[j], decision);
        j := j + 1;
      }
      assert matchedGtagKeys[..j] == matchedGtagKeys;
    }

    /** The "cookiechange" listener `laterCookieChange` registers, for one event's detail. */
    method OnCookieChange(detail: CookieChange)
      requires Valid()
      modifies window
      ensures Valid()
      ensures window.dataLayer == old(window.dataLayer) + CookieChangeCommands(consentMapping, detail)
    {
      CookieChangeCommandsSound(detail);
      Extend(window.dataLayer, CookieChangeCommands(consentMapping, detail));
      HandleCookieChange(detail);
    }

    /** The listener's body: parse both jars, diff the consent strings, and push the changes unless discarded. */
    method HandleCookieChange(detail: CookieChange)
      modifies window
      ensures window.dataLayer == old(window.dataLayer) + CookieChangeCommands(consentMapping, detail)
    {
      var oldConsent := Lookup(ParseCookies(detail.oldValue), ConsentCookieName);
      var newConsent := Lookup(ParseCookies(detail.newValue), ConsentCookieName);
      if !Truthy(oldConsent) || !Truthy(newConsent) {
        assert CookieChangeCommands(consentMapping, detail) == [];
        return;
      }
      var changes := CompareConsentDetails(ParseCookieDetails(oldConsent.value), ParseCookieDetails(newConsent.value));
      assert changes == EventChanges(detail);
      if !(|changes| > 0) {
        return;
      }
      if IsMetaCategory(changes[0].category) {
        return;
      }
      assert CookieChangeCommands(consentMapping, detail) == ChangeCommands(consentMapping, changes);
      UpdateSpecificGtagConsent(changes);
    }

    /** `updateSpecificGtagConsent`: each change, in order, pushes its update and possibly a redaction lift. */
    method UpdateSpecificGtagConsent(changes: seq<Change>)
      modifies window
      ensures window.dataLayer == old(window.dataLayer) + ChangeCommands(consentMapping, changes)
    {
      ghost var start := window.dataLayer;
      var i := 0;
      ghost var pushed: seq<Command> := [];
      while i < |changes|
        invariant 0 <= i <= |changes|
        invariant pushed == ChangeCommands(consentMapping, changes[..i])
        invariant window.dataLayer == start + pushed
      {
        var change := changes[i];
        var newGtag := MatchConsentToGtag([(change.category, change.newValue)]);
        var lift := change.category == "advertisement" && change.newValue == Some("yes");
        assert UpdateCommands(newGtag, lift) == ChangeCommand(consentMapping, change);
        PushConsentUpdate(newGtag, lift);
        ChangeCommandsStep(consentMapping, changes, i);
        assert start + pushed + ChangeCommand(consentMapping, change) == start + (pushed + ChangeCommand(consentMapping, change));
        pushed := pushed + ChangeCommand(consentMapping, change);
        i := i + 1;
      }
      assert changes[..i] == changes;
    }

    /**
     * A write to `document.cookie` in this tab whose native write reads back
     * `readBack`: the change detector dispatches, the listener runs
     * synchronously inside the dispatch, then the change is posted.
     * The body records the post and moves the baseline before running the
     * listener; no modelled state tells the two orders apart, because the
     * listener only appends to the data layer and never writes a cookie.
     */
    method SetCookie(readBack: string, postThrows: bool) returns (thrown: bool)
      requires Valid()
      modifies window, monitor
      ensures Valid()
      ensures monitor.lastCookie == readBack
      ensures var changed, detail := readBack != old(monitor.lastCookie), CookieChange(old(monitor.lastCookie), readBack);
              && monitor.dispatched == old(monitor.dispatched) + (if changed then [detail] else [])
              && monitor.posted == old(monitor.posted) + (if changed && !postThrows then [detail] else [])
              && thrown == (changed && postThrows)
              && window.dataLayer == old(window.dataLayer) + (if changed then CookieChangeCommands(ConsentMapping, detail) else [])
    {
      var before := monitor.lastCookie;
      thrown := monitor.SetCookie(readBack, postThrows);
      if readBack != before {
        OnCookieChange(CookieChange(before, readBack));
      }
    }

    /**
     * A message on "cookie-channel" from another tab: the baseline moves to
     * the payload's new value and the payload is re-dispatched, so the
     * listener diffs the payload's own two jars.
     */
    method ReceiveMessage(data: CookieChange)
      requires Valid()
      modifies window, monitor
      ensures Valid()
      ensures monitor.lastCookie == data.newValue
      ensures monitor.dispatched == old(monitor.dispatched) + [data] && monitor.posted == old(monitor.posted)
      ensures window.dataLayer == old(window.dataLayer) + CookieChangeCommands(ConsentMapping, data)
    {
      monitor.OnMessage(data);
      OnCookieChange(data);
    }
  }
}
