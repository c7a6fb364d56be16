/**
 * End-to-end consequences of the model: what a page pushes when its jar
 * holds a consent cookie written the way CookieYes writes one, and what
 * typical consent changes push.
 */
module Scenarios {
  import opened Wrappers
  import opened Assoc
  import opened JsString
  import opened CookieHelpers
  import opened ConsentMode
  import opened GoogleConsent

  /** Reading a defined field back gives its value; an absent one is `undefined`. */
  lemma {:induction false} LookupDefined(fields: Dict<string>, k: string)
    ensures Lookup(Defined(fields), k) == Get(fields, k)
  {
    if fields != [] {
      assert Defined(fields)[1..] == Defined(fields[1..]);
      LookupDefined(fields[1..], k);
    }
  }

  /** A consent field that fits both in a consent string and in a cookie value. */
  predicate Storable(f: (string, string))
  {
    SimpleField(f) && '=' !in f.0 && '=' !in f.1 && ';' !in f.0 && ';' !in f.1
  }

  /** Joining parts that avoid a character with a separator that avoids it avoids it too. */
  lemma {:induction false} JoinAvoids(parts: seq<string>, sep: string, c: char)
    requires c !in sep && forall p :: p in parts ==> c !in p
    ensures c !in Join(parts, sep)
  {
    if |parts| > 1 {
      JoinAvoids(parts[1..], sep, c);
    }
  }

  /** The jar `cookieyes-consent=k1:v1,k2:v2,...`. */
  function ConsentJar(fields: Dict<string>): string
  {
    ConsentCookieName + "=" + SerializeDetails(fields)
  }

  /** The consent cookie of such a jar is the consent string, and it parses back to its fields. */
  lemma ConsentJarCookie(fields: Dict<string>)
    requires |fields| >= 1 && Unique(Keys(fields)) && forall f :: f in fields ==> Storable(f)
    ensures ConsentCookie(ConsentJar(fields)) == Some(SerializeDetails(fields))
    ensures SerializeDetails(fields) != ""
    ensures ParseCookieDetails(SerializeDetails(fields)) == Defined(fields)
  {
    var text := SerializeDetails(fields);
    var parts := EntryTexts(fields, ":");
    forall p | p in parts ensures '=' !in p && ';' !in p {
      var i :| 0 <= i < |parts| && parts[i] == p;
      assert Storable(fields[i]);
    }
    JoinAvoids(parts, ",", '=');
    JoinAvoids(parts, ",", ';');
    assert |parts[0]| > 0;
    assert |parts| == 1 || text == parts[0] + "," + Join(parts[1..], ",");
    var jar := [(ConsentCookieName, text)];
    assert SerializeCookies(jar) == ConsentJar(fields);
    assert Keys(jar) == [ConsentCookieName];
    CookieRoundTrip(jar);
    DetailsRoundTrip(fields);
  }

  /**
   * A page whose consent cookie parses to the given fields pushes an update
   * exactly when the action field is non-empty; the update maps every field,
   * and a redaction lift follows exactly when advertisement is "yes".
   */
  lemma InitialLoadOfFields(jar: string, fields: Dict<string>)
    requires Truthy(ConsentCookie(jar)) && ParseCookieDetails(ConsentCookie(jar).value) == Defined(fields)
    ensures InitialCommands(ConsentMapping, jar) != [] <==> Truthy(Get(fields, "action"))
    ensures Truthy(Get(fields, "action")) ==>
              InitialCommands(ConsentMapping, jar)
              == [ConsentCommand("update", GtagConsent(Defined(fields)))]
                 + (if Get(fields, "advertisement") == Some("yes") then [RedactionOff] else [])
  {
    LookupDefined(fields, "action");
    LookupDefined(fields, "advertisement");
  }

  /**
   * An event between two such jars pushes, unless the first changed field is
   * "action" or "consent", the commands of the changes between the two
   * consent strings' fields.
   */
  lemma ChangeBetweenConsentJars(oldFields: Dict<string>, newFields: Dict<string>)
    requires |oldFields| >= 1 && Unique(Keys(oldFields)) && forall f :: f in oldFields ==> Storable(f)
    requires |newFields| >= 1 && Unique(Keys(newFields)) && forall f :: f in newFields ==> Storable(f)
    ensures var changes := Changes(Defined(oldFields), Defined(newFields));
            CookieChangeCommands(ConsentMapping, CookieChange(ConsentJar(oldFields), ConsentJar(newFields)))
            == if changes == [] || IsMetaCategory(changes[0].category) then [] else ChangeCommands(ConsentMapping, changes)
  {
    ConsentJarCookie(oldFields);
    ConsentJarCookie(newFields);
  }

  /** The update setting the three advertising consent types to one decision. */
  function AdvertisingUpdate(decision: string): Command
  {
    ConsentCommand("update", [("ad_storage", decision), ("ad_user_data", decision), ("ad_personalization", decision)])
  }

  /** Accepting advertisement grants the three advertising types and lifts redaction, whatever it was before. */
  lemma AdvertisementAccepted(oldValue: Option<string>)
    ensures ChangeCommand(ConsentMapping, Change("advertisement", oldValue, Some("yes")))
            == [AdvertisingUpdate(Granted), RedactionOff]
  {
    AdvertisementConsent(Some("yes"));
  }

  /** Withdrawing advertisement denies the three advertising types and leaves redaction alone. */
  lemma AdvertisementWithdrawn(oldValue: Option<string>, newValue: Option<string>)
    requires newValue != Some("yes")
    ensures ChangeCommand(ConsentMapping, Change("advertisement", oldValue, newValue))
            == [AdvertisingUpdate(Denied)]
  {
    AdvertisementConsent(newValue);
  }

  /** Accepting analytics grants analytics storage alone. */
  lemma AnalyticsAccepted(oldValue: Option<string>)
    ensures ChangeCommand(ConsentMapping, Change("analytics", oldValue, Some("yes")))
            == [ConsentCommand("update", [("analytics_storage", Granted)])]
  {
    AnalyticsConsent();
  }

  /** A change of a category no gtag type maps from, such as "performance", still pushes an empty update. */
  lemma UnmappedCategoryChanged(change: Change)
    requires forall row :: row in ConsentMapping ==> row.1 != change.category
    ensures ChangeCommand(ConsentMapping, change) == [ConsentCommand("update", [])]
  {
    UnmappedConsent(change.category, change.newValue);
  }
}
