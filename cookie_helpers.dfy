/**
 * The helpers of the consent pipeline: the two parsers, the diff of two
 * consent maps, `gtag` appending to `window.dataLayer`, and the
 * change-detection state machine that the `document.cookie` setter and the
 * "cookie-channel" message handler share.
 */
module CookieHelpers {
  import opened Wrappers
  import opened JsString
  import opened Assoc

  /** A parsed cookie jar or consent string; `None` is a value left `undefined`. */
  type Details = Dict<Option<string>>

  /** `obj[key]`: `undefined` both when the key is absent and when it holds `undefined`. */
  function Lookup(d: Details, key: string): (r: Option<string>)
    ensures key !in Keys(d) ==> r == None
  {
    GetSpec(d, key);
    match Get(d, key)
    case None => None
    case Some(v) => v
  }

  /** `obj[key]` for a present key reads what is stored under it, `undefined` included. */
  lemma LookupAt(d: Details, i: nat)
    requires Unique(Keys(d)) && i < |d|
    ensures Lookup(d, d[i].0) == d[i].1
  {
    GetAt(d, i);
  }

  // ---------------------------------------------------------------------
  // parseCookies

  /** `const [key, value] = cookie.split('=')`: a missing second part is `undefined`. */
  function CookieEntry(cookie: string): (string, Option<string>)
  {
    var parts := Split(cookie, "=");
    (parts[0], if |parts| > 1 then Some(parts[1]) else None)
  }

  /** `parseCookies`: the jar split on "; ", each cookie on "=", folded into one object. */
  function ParseCookies(cookieString: string): (cookies: Details)
    ensures Unique(Keys(cookies))
  {
    var parts := Split(cookieString, "; ");
    Reduce(seq(|parts|, i requires 0 <= i < |parts| => CookieEntry(parts[i])))
  }

  /**
   * A cookie's key is the text before its first `=`, its value the text
   * up to the second `=` (anything after that is dropped), and a cookie
   * with no `=` maps its whole text to `undefined`.
   */
  lemma CookieEntryShape(cookie: string, i: nat, j: nat)
    ensures '=' !in cookie ==> CookieEntry(cookie) == (cookie, None)
    ensures i < j <= |cookie| && cookie[i] == '=' && (j == |cookie| || cookie[j] == '=')
            && '=' !in cookie[..i] && '=' !in cookie[i + 1..j]
            ==> CookieEntry(cookie) == (cookie[..i], Some(cookie[i + 1..j]))
  {
    if '=' !in cookie {
      SplitNoField(cookie, '=');
    }
    if i < j <= |cookie| && cookie[i] == '=' && (j == |cookie| || cookie[j] == '=')
       && '=' !in cookie[..i] && '=' !in cookie[i + 1..j]
    {
      SplitFields(cookie, '=', i, j);
    }
  }

  /** An empty jar parses to one key, the empty string, holding `undefined`. */
  lemma ParseCookiesEmpty()
    ensures ParseCookies("") == [("", None)]
  {
    assert Split("", "; ") == [""];
    SplitNoField("", '=');
  }

  /** Every value of a plain string dictionary, defined: what parsing its text should give back. */
  function Defined(fields: Dict<string>): (details: Details)
    ensures Keys(details) == Keys(fields)
  {
    seq(|fields|, i requires 0 <= i < |fields| => (fields[i].0, Some(fields[i].1)))
  }

  /** The `key<sep>value` text of each entry: `key=value` for a cookie, `key:value` for a consent field. */
  function EntryTexts(fields: Dict<string>, sep: string): (texts: seq<string>)
    ensures |texts| == |fields|
  {
    seq(|fields|, i requires 0 <= i < |fields| => fields[i].0 + sep + fields[i].1)
  }

  /** The jar text `k1=v1; k2=v2; ...` of the given cookies. */
  function SerializeCookies(cookies: Dict<string>): string
  {
    Join(EntryTexts(cookies, "="), "; ")
  }

  /** Key and value carry neither `=` nor `;`. */
  predicate SimpleCookie(c: (string, string))
  {
    '=' !in c.0 && '=' !in c.1 && ';' !in c.0 && ';' !in c.1
  }

  /** A single `key=value` cookie with simple key and value parses back to its parts. */
  lemma SimpleCookieEntry(key: string, value: string)
    requires SimpleCookie((key, value))
    ensures CookieEntry(key + "=" + value) == (key, Some(value))
    ensures !Contains(key + "=" + value, "; ")
  {
    var c := key + "=" + value;
    assert CookieEntry(c) == (key, Some(value)) by {
      assert c[..|key|] == key && c[|key| + 1..|c|] == value && c[|key|] == '=';
      CookieEntryShape(c, |key|, |c|);
    }
    assert !Contains(c, "; ") by {
      assert ';' !in c;
      MissingFirstChar(c, ';', " ");
      assert [';'] + " " == "; ";
    }
  }

  /** Each serialized cookie is free of the jar separator and parses back to its entry. */
  lemma SimpleCookieTexts(cookies: Dict<string>)
    requires forall c :: c in cookies ==> SimpleCookie(c)
    ensures forall t :: t in EntryTexts(cookies, "=") ==> !Contains(t, "; ")
    ensures forall i :: 0 <= i < |cookies| ==> CookieEntry(EntryTexts(cookies, "=")[i]) == Defined(cookies)[i]
  {
    forall i | 0 <= i < |cookies|
      ensures !Contains(EntryTexts(cookies, "=")[i], "; ") && CookieEntry(EntryTexts(cookies, "=")[i]) == Defined(cookies)[i]
    {
      assert cookies[i] in cookies;
      SimpleCookieEntry(cookies[i].0, cookies[i].1);
    }
  }

  /** Splitting a jar of simple cookies on "; " recovers the cookie texts. */
  lemma SplitCookieTexts(cookies: Dict<string>)
    requires |cookies| >= 1 && forall c :: c in cookies ==> SimpleCookie(c)
    ensures Split(SerializeCookies(cookies), "; ") == EntryTexts(cookies, "=")
  {
    SimpleCookieTexts(cookies);
    assert Unbordered("; ") by { assert "; "[1..] == " " && "; "[..1] == ";"; }
    SplitJoin(EntryTexts(cookies, "="), "; ");
  }

  /** Serializing distinct simple cookies and parsing the jar gives them back. */
  lemma CookieRoundTrip(cookies: Dict<string>)
    requires |cookies| >= 1 && Unique(Keys(cookies))
    requires forall c :: c in cookies ==> SimpleCookie(c)
    ensures ParseCookies(SerializeCookies(cookies)) == Defined(cookies)
  {
    SplitCookieTexts(cookies);
    CookieEntries(cookies);
    ReduceOfUnique(Defined(cookies));
  }

  /** Parsing each serialized cookie gives back the defined entries. */
  lemma CookieEntries(cookies: Dict<string>)
    requires forall c :: c in cookies ==> SimpleCookie(c)
    ensures var parts := EntryTexts(cookies, "=");
            seq(|parts|, i requires 0 <= i < |parts| => CookieEntry(parts[i])) == Defined(cookies)
  {
    SimpleCookieTexts(cookies);
  }

  // ---------------------------------------------------------------------
  // parseCookieDetails

  /** `const [key, value] = item.split(':').map(part => part.trim())`. */
  function DetailEntry(item: string): (string, Option<string>)
  {
    var parts := Split(item, ":");
    (Trim(parts[0]), if |parts| > 1 then Some(Trim(parts[1])) else None)
  }

  /** `parseCookieDetails`: the consent string split on ",", each item on ":", folded into one object. */
  function ParseCookieDetails(consentString: string): (details: Details)
    ensures Unique(Keys(details))
  {
    var items := Split(consentString, ",");
    Reduce(seq(|items|, i requires 0 <= i < |items| => DetailEntry(items[i])))
  }

  /**
   * An item's key is the trimmed text before its first `:`, its value the
   * trimmed text up to the second `:`; an item with no `:` maps its trimmed
   * text to `undefined`.
   */
  lemma DetailEntryShape(item: string, i: nat, j: nat)
    ensures ':' !in item ==> DetailEntry(item) == (Trim(item), None)
    ensures i < j <= |item| && item[i] == ':' && (j == |item| || item[j] == ':')
            && ':' !in item[..i] && ':' !in item[i + 1..j]
            ==> DetailEntry(item) == (Trim(item[..i]), Some(Trim(item[i + 1..j])))
  {
    if ':' !in item {
      SplitNoField(item, ':');
    }
    if i < j <= |item| && item[i] == ':' && (j == |item| || item[j] == ':')
       && ':' !in item[..i] && ':' !in item[i + 1..j]
    {
      SplitFields(item, ':', i, j);
    }
  }

  /** The consent text `k1:v1,k2:v2,...` of the given fields. */
  function SerializeDetails(fields: Dict<string>): string
  {
    Join(EntryTexts(fields, ":"), ",")
  }

  /** Key and value carry neither `:` nor `,`, and no whitespace at their ends. */
  predicate SimpleField(f: (string, string))
  {
    ':' !in f.0 && ':' !in f.1 && ',' !in f.0 && ',' !in f.1 && Trimmed(f.0) && Trimmed(f.1)
  }

  /** The item `key:value` splits at its one `:`. */
  lemma SimpleDetailSplit(key: string, value: string)
    requires ':' !in key && ':' !in value
    ensures DetailEntry(key + ":" + value) == (Trim(key), Some(Trim(value)))
  {
    var item := key + ":" + value;
    assert item[..|key|] == key && item[|key| + 1..|item|] == value && item[|key|] == ':';
    DetailEntryShape(item, |key|, |item|);
  }

  /** A single `key:value` item with a simple key and value parses back to its parts. */
  lemma SimpleDetailEntry(key: string, value: string)
    requires SimpleField((key, value))
    ensures DetailEntry(key + ":" + value) == (key, Some(value))
    ensures !Contains(key + ":" + value, ",")
  {
    SimpleDetailSplit(key, value);
    TrimOfTrimmed(key);
    TrimOfTrimmed(value);
    var item := key + ":" + value;
    assert ',' !in item;
    ContainsChar(item, ',');
  }

  /** Each serialized field is free of the item separator and parses back to its entry. */
  lemma SimpleItemTexts(fields: Dict<string>)
    requires forall f :: f in fields ==> SimpleField(f)
    ensures forall t :: t in EntryTexts(fields, ":") ==> !Contains(t, ",")
    ensures forall i :: 0 <= i < |fields| ==> DetailEntry(EntryTexts(fields, ":")[i]) == Defined(fields)[i]
  {
    forall i | 0 <= i < |fields|
      ensures !Contains(EntryTexts(fields, ":")[i], ",") && DetailEntry(EntryTexts(fields, ":")[i]) == Defined(fields)[i]
    {
      assert fields[i] in fields;
      SimpleDetailEntry(fields[i].0, fields[i].1);
    }
  }

  /** Splitting a consent text of simple fields on "," recovers the field texts. */
  lemma SplitItemTexts(fields: Dict<string>)
    requires |fields| >= 1 && forall f :: f in fields ==> SimpleField(f)
    ensures Split(SerializeDetails(fields), ",") == EntryTexts(fields, ":")
  {
    SimpleItemTexts(fields);
    SingleCharUnbordered(',');
    SplitJoin(EntryTexts(fields, ":"), ",");
  }

  /** Serializing distinct simple fields and parsing the text gives them back. */
  lemma DetailsRoundTrip(fields: Dict<string>)
    requires |fields| >= 1 && Unique(Keys(fields))
    requires forall f :: f in fields ==> SimpleField(f)
    ensures ParseCookieDetails(SerializeDetails(fields)) == Defined(fields)
  {
    SplitItemTexts(fields);
    DetailEntries(fields);
    ReduceOfUnique(Defined(fields));
  }

  /** Parsing each serialized field gives back the defined entries. */
  lemma DetailEntries(fields: Dict<string>)
    requires forall f :: f in fields ==> SimpleField(f)
    ensures var items := EntryTexts(fields, ":");
            seq(|items|, i requires 0 <= i < |items| => DetailEntry(items[i])) == Defined(fields)
  {
    SimpleItemTexts(fields);
  }

  // ---------------------------------------------------------------------
  // compareCookieYesConsentDetails

  /** One entry of a changeset: `{category, oldValue, newValue}`. */
  datatype Change = Change(category: string, oldValue: Option<string>, newValue: Option<string>)

  /** The categories of a changeset, in order. */
  function Categories(changes: seq<Change>): (cs: seq<string>)
    ensures |cs| == |changes| && forall i :: 0 <= i < |changes| ==> cs[i] == changes[i].category
  {
    seq(|changes|, i requires 0 <= i < |changes| => changes[i].category)
  }

  /** The change of `key`, if its two lookups differ under `!==`. */
  function ChangeAt(key: string, oldList: Details, newList: Details): seq<Change>
  {
    var oldValue, newValue := Lookup(oldList, key), Lookup(newList, key);
    if oldValue != newValue then [Change(key, oldValue, newValue)] else []
  }

  /** The changes found walking `keys` in order. */
  function ChangesOver(keys: seq<string>, oldList: Details, newList: Details): (changes: seq<Change>)
    ensures forall c :: c in changes ==>
              c.category in keys && c.oldValue == Lookup(oldList, c.category)
              && c.newValue == Lookup(newList, c.category) && c.oldValue != c.newValue
  {
    if keys == [] then []
    else ChangesOver(keys[..|keys| - 1], oldList, newList) + ChangeAt(keys[|keys| - 1], oldList, newList)
  }

  /** Walking one more key adds that key's change, if any. */
  lemma ChangesOverStep(keys: seq<string>, j: nat, oldList: Details, newList: Details)
    requires j < |keys|
    ensures ChangesOver(keys[..j + 1], oldList, newList)
            == ChangesOver(keys[..j], oldList, newList) + ChangeAt(keys[j], oldList, newList)
  {
    assert keys[..j + 1][..j] == keys[..j];
  }

  /**
   * The changeset of two consent maps: the keys of both, without repeats, old
   * map's first (`new Set([...Object.keys(old), ...Object.keys(new)])`), kept
   * where the lookups differ.
   */
  function Changes(oldList: Details, newList: Details): seq<Change>
  {
    ChangesOver(Dedup(Keys(oldList) + Keys(newList)), oldList, newList)
  }

  /** `new Set(spread)`, enumerated: each member once, in order of first occurrence. */
  method NewSet(spread: seq<string>) returns (members: seq<string>)
    ensures members == Dedup(spread)
  {
    members := [];
    var i := 0;
    while i < |spread|
      invariant 0 <= i <= |spread|
      invariant members == Dedup(spread[..i])
    {
      DedupStep(spread, i);
      if spread[i] !in members {
        members := members + [spread[i]];
      }
      i := i + 1;
    }
    assert spread[..|spread|] == spread;
  }

  /** `compareCookieYesConsentDetails(oldList, newList)`. */
  method CompareConsentDetails(oldList: Details, newList: Details) returns (changes: seq<Change>)
    ensures changes == Changes(oldList, newList)
  {
    var allKeys := NewSet(Keys(oldList) + Keys(newList));
    changes := [];
    var j := 0;
    while j < |allKeys|
      invariant 0 <= j <= |allKeys|
      invariant changes == ChangesOver(allKeys[..j], oldList, newList)
    {
      var key := allKeys[j];
      ChangesOverStep(allKeys, j, oldList, newList);
      var oldValue := Lookup(oldList, key);
      var newValue := Lookup(newList, key);
      if oldValue != newValue {
        changes := changes + [Change(key, oldValue, newValue)];
      }
      j := j + 1;
    }
    assert allKeys[..|allKeys|] == allKeys;
  }

  /** The keys whose lookups differ: the reference description of a changeset's categories. */
  function ChangedKeys(oldList: Details, newList: Details): set<string>
  {
    set k | k in Keys(oldList) + Keys(newList) && Lookup(oldList, k) != Lookup(newList, k)
  }

  /** Walking a key list skips no key whose lookups differ. */
  lemma {:induction false} ChangesOverComplete(keys: seq<string>, oldList: Details, newList: Details, k: string)
    requires k in keys && Lookup(oldList, k) != Lookup(newList, k)
    ensures Change(k, Lookup(oldList, k), Lookup(newList, k)) in ChangesOver(keys, oldList, newList)
  {
    var init := keys[..|keys| - 1];
    assert keys == init + [keys[|keys| - 1]];
    if k != keys[|keys| - 1] {
      ChangesOverComplete(init, oldList, newList, k);
    }
  }

  /** The keys among `keys` whose lookups differ. */
  function DifferingIn(keys: seq<string>, oldList: Details, newList: Details): set<string>
  {
    set k | k in keys && Lookup(oldList, k) != Lookup(newList, k)
  }

  /** Walking a repetition-free key list yields each category at most once. */
  lemma {:induction false} ChangesOverUnique(keys: seq<string>, oldList: Details, newList: Details)
    requires Unique(keys)
    ensures Unique(Categories(ChangesOver(keys, oldList, newList)))
  {
    if keys != [] {
      var init, key := keys[..|keys| - 1], keys[|keys| - 1];
      assert Unique(init);
      ChangesOverUnique(init, oldList, newList);
      var before := ChangesOver(init, oldList, newList);
      assert key !in init;
      assert forall c :: c in before ==> c.category != key;
      assert forall i :: 0 <= i < |before| ==> Categories(before)[i] != key by {
        forall i | 0 <= i < |before| ensures Categories(before)[i] != key {
          assert before[i] in before;
        }
      }
      if Lookup(oldList, key) != Lookup(newList, key) {
        assert Categories(before + ChangeAt(key, oldList, newList)) == Categories(before) + [key];
      } else {
        assert before + ChangeAt(key, oldList, newList) == before;
      }
    }
  }

  /** Walking a repetition-free key list yields one change per differing key. */
  lemma {:induction false} ChangesOverCount(keys: seq<string>, oldList: Details, newList: Details)
    requires Unique(keys)
    ensures |ChangesOver(keys, oldList, newList)| == |DifferingIn(keys, oldList, newList)|
  {
    if keys != [] {
      var init, key := keys[..|keys| - 1], keys[|keys| - 1];
      assert Unique(init);
      ChangesOverCount(init, oldList, newList);
      assert key !in init;
      assert keys == init + [key];
      if Lookup(oldList, key) != Lookup(newList, key) {
        assert DifferingIn(keys, oldList, newList) == DifferingIn(init, oldList, newList) + {key};
      } else {
        assert DifferingIn(keys, oldList, newList) == DifferingIn(init, oldList, newList);
      }
    }
  }

  /**
   * A change is in the changeset exactly when its category's lookups differ
   * and it carries both lookups; no category repeats, and there is one
   * change per key of `ChangedKeys`.
   */
  lemma ChangesExact(oldList: Details, newList: Details)
    ensures forall c :: c in Changes(oldList, newList) <==>
              Lookup(oldList, c.category) != Lookup(newList, c.category)
              && c.oldValue == Lookup(oldList, c.category) && c.newValue == Lookup(newList, c.category)
    ensures Unique(Categories(Changes(oldList, newList)))
    ensures |Changes(oldList, newList)| == |ChangedKeys(oldList, newList)|
  {
    var keys := Dedup(Keys(oldList) + Keys(newList));
    forall c: Change | Lookup(oldList, c.category) != Lookup(newList, c.category)
               && c.oldValue == Lookup(oldList, c.category) && c.newValue == Lookup(newList, c.category)
      ensures c in Changes(oldList, newList)
    {
      var k := c.category;
      assert Lookup(oldList, k).Some? || Lookup(newList, k).Some?;
      assert k in Keys(oldList) + Keys(newList);
      ChangesOverComplete(keys, oldList, newList, k);
    }
    ChangesOverUnique(keys, oldList, newList);
    ChangesOverCount(keys, oldList, newList);
    assert DifferingIn(keys, oldList, newList) == ChangedKeys(oldList, newList);
  }

  /** Nothing changes between a map and itself. */
  lemma ChangesOfSame(list: Details)
    ensures Changes(list, list) == []
  {
    ChangesOverSame(Dedup(Keys(list) + Keys(list)), list);
  }

  lemma {:induction false} ChangesOverSame(keys: seq<string>, list: Details)
    ensures ChangesOver(keys, list, list) == []
  {
    if keys != [] {
      ChangesOverSame(keys[..|keys| - 1], list);
    }
  }

  /** The reversal of a change. */
  function Swapped(c: Change): Change
  {
    Change(c.category, c.newValue, c.oldValue)
  }

  /**
   * Swapping the arguments finds the same categories with old and new
   * values exchanged, and as many of them (the order may differ).
   */
  lemma ChangesSwap(a: Details, b: Details)
    ensures |Changes(b, a)| == |Changes(a, b)|
    ensures forall c :: c in Changes(b, a) <==> Swapped(c) in Changes(a, b)
  {
    ChangesExact(a, b);
    ChangesExact(b, a);
    assert ChangedKeys(a, b) == ChangedKeys(b, a) by {
      forall k ensures k in Keys(a) + Keys(b) <==> k in Keys(b) + Keys(a) { }
    }
  }

  /** A walk over two key lists in a row finds the changes of the first, then of the second. */
  lemma {:induction false} ChangesOverConcat(xs: seq<string>, ys: seq<string>, oldList: Details, newList: Details)
    ensures ChangesOver(xs + ys, oldList, newList)
            == ChangesOver(xs, oldList, newList) + ChangesOver(ys, oldList, newList)
  {
    if ys == [] {
      assert xs + ys == xs;
    } else {
      var init, last := ys[..|ys| - 1], ys[|ys| - 1];
      assert (xs + ys)[..|xs + ys| - 1] == xs + init && (xs + ys)[|xs + ys| - 1] == last;
      assert ChangesOver(xs + ys, oldList, newList)
             == ChangesOver(xs + init, oldList, newList) + ChangeAt(last, oldList, newList);
      ChangesOverConcat(xs, init, oldList, newList);
    }
  }

  /**
   * Changeset order: the old map's keys come first, in its enumeration
   * order, then the keys only the new map has, in its order.
   */
  lemma ChangesOrder(oldList: Details, newList: Details)
    requires Unique(Keys(oldList)) && Unique(Keys(newList))
    ensures Changes(oldList, newList)
            == ChangesOver(Keys(oldList), oldList, newList)
               + ChangesOver(Without(Keys(newList), Keys(oldList)), oldList, newList)
  {
    DedupConcat(Keys(oldList), Keys(newList));
    ChangesOverConcat(Keys(oldList), Without(Keys(newList), Keys(oldList)), oldList, newList);
  }

  // ---------------------------------------------------------------------
  // gtag

  /** One argument of a `gtag(...)` call: a string, a boolean or a string-valued object. */
  datatype Arg = Str(s: string) | Flag(b: bool) | Obj(fields: Dict<string>)

  /** The argument list of one `gtag` call, as it lands in `dataLayer`. */
  type Command = seq<Arg>

  /** The page's `window`, as far as the consent code touches it. */
  class Window {
    var dataLayer: seq<Command>

    /** A window whose `dataLayer` already holds `dataLayer` (empty when it was not set). */
    constructor (dataLayer: seq<Command>)
      ensures this.dataLayer == dataLayer
    {
      this.dataLayer := dataLayer;
    }

    /** `gtag(...args)`: the argument list becomes one new last entry of `dataLayer`. */
    method Gtag(args: Command)
      modifies this
      ensures dataLayer == old(dataLayer) + [args]
    {
      dataLayer := dataLayer + [args];
    }
  }

  // ---------------------------------------------------------------------
  // broadcastCookieChangeEvents

  /** The detail of a "cookiechange" event and the payload posted on "cookie-channel". */
  datatype CookieChange = CookieChange(oldValue: string, newValue: string)

  /**
   * The change detector that `broadcastCookieChangeEvents` installs: the
   * `lastCookie` baseline, and as outputs the "cookiechange" events
   * dispatched on the document and the messages posted on the channel.
   * What the browser's cookie store returns after a write is an input.
   */
  class CookieMonitor {
    var lastCookie: string
    var dispatched: seq<CookieChange>
    var posted: seq<CookieChange>

    /** The newest event always ends at the current baseline. */
    ghost predicate Valid()
      reads this
    {
      dispatched != [] ==> dispatched[|dispatched| - 1].newValue == lastCookie
    }

    /** `let lastCookie = document.cookie`, before anything is dispatched or posted. */
    constructor (cookie: string)
      ensures Valid()
      ensures lastCookie == cookie && dispatched == [] && posted == []
    {
      lastCookie := cookie;
      dispatched := [];
      posted := [];
    }

    /**
     * The `document.cookie` setter, after the native write has happened and
     * read back `readBack`. A change to the baseline dispatches an event and
     * then posts a message; `postThrows` says whether `postMessage` throws,
     * which ends the setter early with `thrown` but, being inside `finally`,
     * still moves the baseline to `readBack`.
     */
    method SetCookie(readBack: string, postThrows: bool) returns (thrown: bool)
      requires Valid()
      modifies this
      ensures Valid()
      ensures lastCookie == readBack
      ensures var changed, detail := readBack != old(lastCookie), CookieChange(old(lastCookie), readBack);
              dispatched == old(dispatched) + (if changed then [detail] else [])
              && posted == old(posted) + (if changed && !postThrows then [detail] else [])
              && thrown == (changed && postThrows)
    {
      var cookie := readBack;
      thrown := false;
      if cookie != lastCookie {
        var detail := CookieChange(lastCookie, cookie);
        dispatched := dispatched + [detail];
        if postThrows {
          thrown := true;
        } else {
          posted := posted + [detail];
        }
        lastCookie := cookie;
      }
    }

    /**
     * `channel.onmessage`: another tab's change becomes the baseline and is
     * re-dispatched unconditionally, without comparing.
     */
    method OnMessage(data: CookieChange)
      requires Valid()
      modifies this
      ensures Valid()
      ensures lastCookie == data.newValue
      ensures dispatched == old(dispatched) + [data] && posted == old(posted)
    {
      lastCookie := data.newValue;
      dispatched := dispatched + [data];
    }
  }
}
