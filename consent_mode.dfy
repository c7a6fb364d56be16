/**
 * The CookieYes-to-gtag side of `GoogleConsentMode`: its static mapping of
 * gtag consent types to CookieYes categories, and the consent object
 * `matchCookieYesConsentToGtag` builds from a parsed consent string.
 */
module ConsentMode {
  import opened Wrappers
  import opened Assoc
  import opened CookieHelpers

  /** `consentMapping`: gtag consent type to CookieYes category, in declaration order. */
  const ConsentMapping: Dict<string> := [
    ("ad_storage", "advertisement"),
    ("ad_user_data", "advertisement"),
    ("ad_personalization", "advertisement"),
    ("analytics_storage", "analytics"),
    ("functionality_storage", "functional"),
    ("personalization_storage", "functional"),
    ("security_storage", "necessary")
  ]

  /** The seven gtag consent types. */
  const GtagKeys: seq<string> := Keys(ConsentMapping)

  const Granted := "granted"
  const Denied := "denied"

  /** `value === 'yes' ? 'granted' : 'denied'`: anything but exactly "yes" is a denial. */
  function Decision(value: Option<string>): string
  {
    if value == Some("yes") then Granted else Denied
  }

  /** The gtag keys of a mapping table that map to `category`, in table order. */
  function KeysMappedTo(table: Dict<string>, category: string): seq<string>
  {
    if table == [] then []
    else
      var rest := KeysMappedTo(table[1..], category);
      if table[0].1 == category then [table[0].0] + rest else rest
  }

  /** The filter keeps exactly the keys the table maps to `category`. */
  lemma {:induction false} KeysMappedToMembers(table: Dict<string>, category: string)
    ensures forall g :: g in KeysMappedTo(table, category) <==> (g, category) in table
  {
    if table != [] {
      KeysMappedToMembers(table[1..], category);
      assert forall e :: e in table <==> e == table[0] || e in table[1..];
    }
  }

  /** A table with distinct keys yields distinct keys. */
  lemma {:induction false} KeysMappedToUnique(table: Dict<string>, category: string)
    requires Unique(Keys(table))
    ensures Unique(KeysMappedTo(table, category))
  {
    if table != [] {
      var tail := table[1..];
      assert Keys(tail) == Keys(table)[1..];
      KeysMappedToUnique(tail, category);
      KeysMappedToMembers(tail, category);
      forall i | 0 <= i < |tail| ensures tail[i].0 != table[0].0 {
        assert Keys(table)[i + 1] == tail[i].0;
      }
    }
  }

  /**
   * The filter keeps exactly the keys the table maps to `category`, and a
   * table with distinct keys yields distinct keys.
   */
  lemma KeysMappedToSpec(table: Dict<string>, category: string)
    ensures forall g :: g in KeysMappedTo(table, category) <==> (g, category) in table
    ensures Unique(Keys(table)) ==> Unique(KeysMappedTo(table, category))
  {
    KeysMappedToMembers(table, category);
    if Unique(Keys(table)) {
      KeysMappedToUnique(table, category);
    }
  }

  /** `Object.keys(consentMapping).filter(gtagKey => consentMapping[gtagKey] === category)`. */
  function MatchedGtagKeys(category: string): seq<string>
  {
    KeysMappedTo(ConsentMapping, category)
  }

  /** The matched keys are exactly the gtag keys mapped to `category`, each once. */
  lemma MatchedGtagKeysSpec(category: string)
    ensures forall g :: g in MatchedGtagKeys(category) <==> (g, category) in ConsentMapping
    ensures Unique(MatchedGtagKeys(category))
  {
    GtagKeysUnique();
    KeysMappedToSpec(ConsentMapping, category);
  }

  /** No gtag key is listed twice (their lengths already differ). */
  lemma GtagKeysUnique()
    ensures Unique(GtagKeys)
  {
    assert forall i :: 0 <= i < 7 ==> |GtagKeys[i]| == [10, 12, 18, 17, 21, 23, 16][i];
  }

  /** A table with distinct keys maps each key to one category only. */
  lemma TableFunctional(table: Dict<string>, gtagKey: string, c1: string, c2: string)
    requires Unique(Keys(table)) && (gtagKey, c1) in table && (gtagKey, c2) in table
    ensures c1 == c2
  {
    var i :| 0 <= i < |table| && table[i] == (gtagKey, c1);
    var j :| 0 <= j < |table| && table[j] == (gtagKey, c2);
    assert Keys(table)[i] == Keys(table)[j];
  }

  /** `keys.forEach(gtagKey => { gtagConsent[gtagKey] = decision; })`. */
  function AssignAll(d: Dict<string>, keys: seq<string>, decision: string): Dict<string>
  {
    if keys == [] then d
    else Put(AssignAll(d, keys[..|keys| - 1], decision), keys[|keys| - 1], decision)
  }

  /** The assigned keys are added to the keys already there. */
  lemma {:induction false} AssignAllKeys(d: Dict<string>, keys: seq<string>, decision: string)
    ensures forall g :: g in Keys(AssignAll(d, keys, decision)) <==> g in Keys(d) || g in keys
  {
    if keys != [] {
      var init := keys[..|keys| - 1];
      AssignAllKeys(d, init, decision);
      PutKeys(AssignAll(d, init, decision), keys[|keys| - 1], decision);
      assert keys == init + [keys[|keys| - 1]];
    }
  }

  /** The assigned keys read back the decision, and every other key reads as before. */
  lemma {:induction false} AssignAllGet(d: Dict<string>, keys: seq<string>, decision: string, g: string)
    ensures Get(AssignAll(d, keys, decision), g) == if g in keys then Some(decision) else Get(d, g)
  {
    if keys != [] {
      var init, last := keys[..|keys| - 1], keys[|keys| - 1];
      AssignAllGet(d, init, decision, g);
      PutGet(AssignAll(d, init, decision), last, decision, g);
      assert keys == init + [last];
    }
  }

  /** Both facts, for every key. */
  lemma AssignAllSpec(d: Dict<string>, keys: seq<string>, decision: string)
    ensures forall g :: g in Keys(AssignAll(d, keys, decision)) <==> g in Keys(d) || g in keys
    ensures forall g :: Get(AssignAll(d, keys, decision), g) == if g in keys then Some(decision) else Get(d, g)
  {
    AssignAllKeys(d, keys, decision);
    forall g ensures Get(AssignAll(d, keys, decision), g) == if g in keys then Some(decision) else Get(d, g) {
      AssignAllGet(d, keys, decision, g);
    }
  }

  /**
   * The object `matchCookieYesConsentToGtag` builds from a mapping table:
   * for each entry of the details in order, every gtag key that the table
   * maps to the entry's category receives the entry's decision.
   */
  function MapConsent(table: Dict<string>, details: Details): Dict<string>
  {
    if details == [] then []
    else
      var init, last := details[..|details| - 1], details[|details| - 1];
      AssignAll(MapConsent(table, init), KeysMappedTo(table, last.0), Decision(last.1))
  }

  /** Assigning one more key is one more `Put`. */
  lemma AssignAllStep(d: Dict<string>, keys: seq<string>, j: nat, decision: string)
    requires j < |keys|
    ensures AssignAll(d, keys[..j + 1], decision) == Put(AssignAll(d, keys[..j], decision), keys[j], decision)
  {
    assert keys[..j + 1][..j] == keys[..j];
  }

  /** Mapping one more entry assigns its decision to its category's keys. */
  lemma MapConsentStep(table: Dict<string>, details: Details, i: nat)
    requires i < |details|
    ensures MapConsent(table, details[..i + 1])
            == AssignAll(MapConsent(table, details[..i]), KeysMappedTo(table, details[i].0), Decision(details[i].1))
  {
    assert details[..i + 1][..i] == details[..i];
  }

  /** The object built with the CookieYes table. */
  function GtagConsent(details: Details): Dict<string>
  {
    MapConsent(ConsentMapping, details)
  }

  /** Only keys of the table appear, each with "granted" or "denied". */
  lemma {:induction false} MapConsentKeys(table: Dict<string>, details: Details)
    ensures forall g :: g in Keys(MapConsent(table, details)) ==> g in Keys(table)
    ensures forall g :: g in Keys(MapConsent(table, details)) ==> Get(MapConsent(table, details), g) in {Some(Granted), Some(Denied)}
  {
    if details != [] {
      var init, last := details[..|details| - 1], details[|details| - 1];
      MapConsentKeys(table, init);
      AssignAllSpec(MapConsent(table, init), KeysMappedTo(table, last.0), Decision(last.1));
      KeysMappedToSpec(table, last.0);
      forall g | g in KeysMappedTo(table, last.0) ensures g in Keys(table) {
        var i :| 0 <= i < |table| && table[i] == (g, last.0);
        assert Keys(table)[i] == g;
      }
    }
  }

  /** The gtag commands only ever carry the seven consent types, granted or denied. */
  lemma GtagConsentKeys(details: Details)
    ensures forall g :: g in Keys(GtagConsent(details)) ==> g in GtagKeys
    ensures forall g :: g in Keys(GtagConsent(details)) ==> Get(GtagConsent(details), g) in {Some(Granted), Some(Denied)}
  {
    MapConsentKeys(ConsentMapping, details);
  }

  /**
   * For a table and a details object with distinct keys, a gtag key is
   * present exactly when its category is, and then holds "granted" if that
   * category's value is exactly "yes" and "denied" otherwise.
   */
  lemma {:induction false} MapConsentValues(table: Dict<string>, details: Details, gtagKey: string, category: string)
    requires Unique(Keys(table)) && Unique(Keys(details)) && (gtagKey, category) in table
    ensures gtagKey in Keys(MapConsent(table, details)) <==> category in Keys(details)
    ensures category in Keys(details) ==> Get(MapConsent(table, details), gtagKey) == Some(Decision(Lookup(details, category)))
  {
    if details != [] {
      var init, last := details[..|details| - 1], details[|details| - 1];
      var matched, prev := KeysMappedTo(table, last.0), MapConsent(table, init);
      assert MapConsent(table, details) == AssignAll(prev, matched, Decision(last.1));
      AssignAllKeys(prev, matched, Decision(last.1));
      AssignAllGet(prev, matched, Decision(last.1), gtagKey);
      assert Keys(details) == Keys(init) + [last.0] by {
        assert details == init + [last];
      }
      assert Unique(Keys(init)) by {
        assert Keys(init) == Keys(details)[..|init|];
      }
      MapConsentValues(table, init, gtagKey, category);
      assert gtagKey in matched <==> category == last.0 by {
        KeysMappedToMembers(table, last.0);
        if (gtagKey, last.0) in table {
          TableFunctional(table, gtagKey, category, last.0);
        }
      }
      if category == last.0 {
        assert Lookup(details, category) == last.1 by {
          GetAt(details, |details| - 1);
        }
      } else {
        assert Lookup(details, category) == Lookup(init, category) by {
          assert details == init + [last];
          GetSnoc(init, last.0, last.1, category);
        }
      }
    }
  }

  /**
   * Every gtag key whose category is present gets "granted" exactly when
   * that category's value is "yes", "denied" otherwise (also for "no" and
   * undefined); a gtag key whose category is absent is absent.
   */
  lemma GtagConsentValues(details: Details, gtagKey: string, category: string)
    requires Unique(Keys(details)) && (gtagKey, category) in ConsentMapping
    ensures gtagKey in Keys(GtagConsent(details)) <==> category in Keys(details)
    ensures category in Keys(details) ==> Get(GtagConsent(details), gtagKey) == Some(Decision(Lookup(details, category)))
  {
    GtagKeysUnique();
    MapConsentValues(ConsentMapping, details, gtagKey, category);
  }

  /** A one-entry details object maps to the category's gtag keys, in table order, all with its decision. */
  lemma MapConsentSingle(table: Dict<string>, category: string, value: Option<string>)
    requires Unique(Keys(table))
    ensures MapConsent(table, [(category, value)])
            == seq(|KeysMappedTo(table, category)|, i requires 0 <= i < |KeysMappedTo(table, category)| =>
                     (KeysMappedTo(table, category)[i], Decision(value)))
  {
    var keys := KeysMappedTo(table, category);
    KeysMappedToSpec(table, category);
    AssignFresh(keys, Decision(value));
    assert [(category, value)][..0] == [];
    assert MapConsent(table, [(category, value)]) == AssignAll([], keys, Decision(value));
  }

  /**
   * `matchCookieYesConsentToGtag({[category]: value})`, as each change is
   * mapped: the category's gtag keys, in table order, all with its decision.
   */
  lemma SingleCategoryConsent(category: string, value: Option<string>)
    ensures GtagConsent([(category, value)])
            == seq(|MatchedGtagKeys(category)|, i requires 0 <= i < |MatchedGtagKeys(category)| =>
                     (MatchedGtagKeys(category)[i], Decision(value)))
  {
    GtagKeysUnique();
    MapConsentSingle(ConsentMapping, category, value);
  }

  /** Assigning distinct keys to an empty object lists them in order. */
  lemma {:induction false} AssignFresh(keys: seq<string>, decision: string)
    requires Unique(keys)
    ensures AssignAll([], keys, decision)
            == seq(|keys|, i requires 0 <= i < |keys| => (keys[i], decision))
  {
    if keys != [] {
      var init, last := keys[..|keys| - 1], keys[|keys| - 1];
      var paired := seq(|init|, i requires 0 <= i < |init| => (init[i], decision));
      assert AssignAll([], init, decision) == paired by {
        assert Unique(init);
        AssignFresh(init, decision);
      }
      assert last !in Keys(paired) by {
        assert Keys(paired) == init;
        assert keys == init + [last];
      }
      PutAbsent(paired, last, decision);
      assert paired + [(last, decision)] == seq(|keys|, i requires 0 <= i < |keys| => (keys[i], decision));
    }
  }

  /** The advertisement category drives three gtag keys, in the mapping's declaration order. */
  lemma AdvertisementKeys()
    ensures MatchedGtagKeys("advertisement") == ["ad_storage", "ad_user_data", "ad_personalization"]
  {
    var m := ConsentMapping;
    assert KeysMappedTo(m[6..], "advertisement") == [];
    assert KeysMappedTo(m[5..], "advertisement") == [];
    assert KeysMappedTo(m[4..], "advertisement") == [];
    assert KeysMappedTo(m[3..], "advertisement") == [];
    assert KeysMappedTo(m[2..], "advertisement") == ["ad_personalization"];
    assert KeysMappedTo(m[1..], "advertisement") == ["ad_user_data", "ad_personalization"];
  }

  /** The mapping is many-to-one: one advertisement decision sets all three advertising keys. */
  lemma AdvertisementConsent(value: Option<string>)
    ensures GtagConsent([("advertisement", value)])
            == [("ad_storage", Decision(value)), ("ad_user_data", Decision(value)), ("ad_personalization", Decision(value))]
  {
    SingleCategoryConsent("advertisement", value);
    AdvertisementKeys();
  }

  /** `{analytics: 'yes'}` grants analytics storage and sets nothing else. */
  lemma AnalyticsConsent()
    ensures GtagConsent([("analytics", Some("yes"))]) == [("analytics_storage", Granted)]
  {
    SingleCategoryConsent("analytics", Some("yes"));
    var m := ConsentMapping;
    assert KeysMappedTo(m[6..], "analytics") == [];
    assert KeysMappedTo(m[5..], "analytics") == [];
    assert KeysMappedTo(m[4..], "analytics") == [];
    assert KeysMappedTo(m[3..], "analytics") == ["analytics_storage"];
    assert KeysMappedTo(m[2..], "analytics") == ["analytics_storage"];
    assert KeysMappedTo(m[1..], "analytics") == ["analytics_storage"];
    assert MatchedGtagKeys("analytics") == ["analytics_storage"];
  }

  /** A category no gtag key maps to, such as "action", contributes nothing. */
  lemma UnmappedConsent(category: string, value: Option<string>)
    requires forall row :: row in ConsentMapping ==> row.1 != category
    ensures GtagConsent([(category, value)]) == []
  {
    SingleCategoryConsent(category, value);
    MatchedGtagKeysSpec(category);
    var keys := MatchedGtagKeys(category);
    assert forall i :: 0 <= i < |keys| ==> keys[i] !in keys;
  }
}
