# Google Consent Mode for CookieYes, in Dafny

This project models the part of the site's JavaScript that keeps Google
Consent Mode in step with the CookieYes consent banner, and proves
properties of that model.

On page load, `GoogleConsentMode` does three things:

- It pushes the default consent state onto `window.dataLayer`. Every consent type is denied except security storage, and ads data redaction and URL passthrough are switched on.
- It reads the `cookieyes-consent` cookie and parses its `key:value,...` consent string into CookieYes categories.
- It maps those categories onto gtag consent types, through the fixed CookieYes table, and pushes one `consent update`. When advertisement is "yes", it follows the update with `set ads_data_redaction false`.

After that, every "cookiechange" event goes through the same steps. The event's old and new consent strings are diffed. If the first change is not the `action` or `consent` bookkeeping entry, each change pushes its own update.

A patched `document.cookie` setter detects changes. It dispatches the event in this tab and posts the change on a `BroadcastChannel` called "cookie-channel". Other tabs re-dispatch what they receive.

## Modules

- `Wrappers`: `Option`, which stands for JavaScript `undefined`.
- `JsString`:
  - `String.prototype.split`: leftmost, non-overlapping occurrences;
  - the inverse `Join`;
  - `trim`, over ECMAScript WhiteSpace and LineTerminator characters.
- `Assoc`:
  - a plain JavaScript object as an association list in insertion order;
  - reading and assigning a property;
  - the `reduce` that folds entries into an object;
  - `new Set` as order-keeping deduplication.
- `CookieHelpers` (`helpers/cookie-helpers.ts`):
  - `parseCookies` and `parseCookieDetails`, with their round trips;
  - `compareCookieYesConsentDetails` as a `Changes` function and as a `method` with the loops the source has;
  - `gtag`, as the `Window` class's `Gtag` method;
  - the change detector `broadcastCookieChangeEvents` installs, as the `CookieMonitor` class: its setter and its channel handler.
- `ConsentMode` (`index.ts`, the mapping): the `consentMapping` table and the consent object `matchCookieYesConsentToGtag` builds (`MapConsent`).
- `GoogleConsent` (`index.ts`, the controller):
  - the commands pushed at start-up and per event, as functions of the cookie jars;
  - a soundness invariant over what is pushed;
  - the class `GoogleConsentMode`, whose methods push those commands onto the window's data layer and keep the invariant.
- `Scenarios`: end-to-end consequences. These are a jar holding a consent cookie written the way CookieYes writes one, and the usual consent changes.

The controller's methods are proved against the command functions: each one ends with `dataLayer == old(dataLayer) + <function of the inputs>`. The functions' properties are then proved as lemmas.

### Behaviour as written

In a few places the code does something other than a plain reading of its design. The model follows the code:

- Parsing an empty cookie string or consent string does not give an empty object. It gives an object with one key `""` holding `undefined` (`ParseCookiesEmpty`).
- A key holds only the text between the first and the second separator. A cookie value containing `=` is cut at that `=` (`CookieEntryShape`, `DetailEntryShape`).
- A tab that receives a change on the channel does not diff against its own last-known jar. It moves its baseline to the payload's new value, then diffs the payload's own old and new values (`ReceiveMessage`).
- A change of a category without a gtag consent type, such as "performance", is not ignored. It pushes an empty `consent update` (`UnmappedCategoryChanged`).
- If `postMessage` throws, the exception leaves the setter. The `finally` block still moves the baseline, and the event in this tab has already been dispatched (`CookieMonitor.SetCookie`).

## Model

| member | source | states |
|---|---|---|
| JsString.IndexFrom | src/google-consent-mode/helpers/cookie-helpers.ts:14 | the result is the first occurrence of the separator at or after the start; when none is found, there is no occurrence at all |
| JsString.Split | src/google-consent-mode/helpers/cookie-helpers.ts:13-14 | `split` gives at least one part; joining the parts with the separator restores the input; no part contains the separator |
| JsString.SplitJoin | src/google-consent-mode/helpers/cookie-helpers.ts:13 | splitting a join gives the parts back, when no part contains the separator and the separator has no border |
| JsString.FirstField | src/google-consent-mode/helpers/cookie-helpers.ts:14 | the first part of a one-character split is the text before the first separator; the remaining parts are the split of what follows it |
| JsString.SplitFields | src/google-consent-mode/helpers/cookie-helpers.ts:22 | the first two parts are the text before the first separator and the text between the first and second |
| JsString.Trim | src/google-consent-mode/helpers/cookie-helpers.ts:22 | `trim` leaves no whitespace at either end, and the result is a slice of the input with only whitespace cut off around it |
| JsString.TrimOfTrimmed | src/google-consent-mode/helpers/cookie-helpers.ts:22 | trimming a string with no whitespace at its ends leaves it unchanged |
| Assoc.GetSpec | src/google-consent-mode/helpers/cookie-helpers.ts:38-39 | reading a property finds a value exactly when the key is present, and that value is one of the key's entries |
| Assoc.PutKeys | src/google-consent-mode/helpers/cookie-helpers.ts:15 | assigning a property keeps the key order; a new key is appended at the end |
| Assoc.PutGet | src/google-consent-mode/helpers/cookie-helpers.ts:15 | after an assignment, the assigned key reads the new value and every other key reads what it read before |
| Assoc.Dedup | src/google-consent-mode/helpers/cookie-helpers.ts:33-36 | `new Set` holds no duplicates and has exactly the members of its input |
| Assoc.DedupConcat | src/google-consent-mode/helpers/cookie-helpers.ts:33-36 | the set of two duplicate-free key lists is the first list followed by the second list's keys missing from the first |
| Assoc.Reduce | src/google-consent-mode/helpers/cookie-helpers.ts:13-17 | the folded object has unique keys, in order of their first occurrence |
| Assoc.ReduceLastWins | src/google-consent-mode/helpers/cookie-helpers.ts:15 | a key's value in the folded object comes from its last entry |
| Assoc.ReduceOfUnique | src/google-consent-mode/helpers/cookie-helpers.ts:13-17 | folding entries whose keys are already unique gives those entries unchanged |
| Assoc.ReduceAbsent | src/google-consent-mode/helpers/cookie-helpers.ts:13-17 | a key no entry has is absent from the folded object |
| CookieHelpers.Lookup | src/google-consent-mode/index.ts:57 | `obj[key]` for a key that is absent is `undefined` |
| CookieHelpers.LookupAt | src/google-consent-mode/helpers/cookie-helpers.ts:38-39 | `obj[key]` for a present key reads the value stored under it, a stored `undefined` included |
| CookieHelpers.ParseCookies | src/google-consent-mode/helpers/cookie-helpers.ts:12-18 | the parsed jar never holds a cookie name twice |
| CookieHelpers.CookieEntryShape | src/google-consent-mode/helpers/cookie-helpers.ts:14 | a cookie without `=` maps its whole text to `undefined`; otherwise the key is the text before the first `=` and the value is the text up to the next `=` |
| CookieHelpers.ParseCookiesEmpty | src/google-consent-mode/helpers/cookie-helpers.ts:12-18 | an empty jar parses to the single key `""` holding `undefined` |
| CookieHelpers.CookieRoundTrip | src/google-consent-mode/helpers/cookie-helpers.ts:12-18 | a non-empty jar serialised as `k=v; k=v` parses back to its cookies, every value defined, when names are unique and no name or value contains `=` or `;` |
| CookieHelpers.ParseCookieDetails | src/google-consent-mode/helpers/cookie-helpers.ts:20-26 | the parsed consent string never holds a category twice |
| CookieHelpers.DetailEntryShape | src/google-consent-mode/helpers/cookie-helpers.ts:22 | an item without `:` maps its trimmed text to `undefined`; otherwise the key and value are the trimmed texts before the first `:` and between it and the next |
| CookieHelpers.SimpleDetailSplit | src/google-consent-mode/helpers/cookie-helpers.ts:22 | `key:value` with no other `:` splits into the trimmed key and the trimmed value |
| CookieHelpers.DetailsRoundTrip | src/google-consent-mode/helpers/cookie-helpers.ts:20-26 | a non-empty consent string serialised as `k:v,k:v` parses back to its fields, every value defined, when keys are unique and no key or value contains `:` or `,` or has whitespace at either end |
| CookieHelpers.NewSet | src/google-consent-mode/helpers/cookie-helpers.ts:33-36 | the loop building `new Set([...])` gives the order-keeping deduplication of the spread keys |
| CookieHelpers.CompareConsentDetails | src/google-consent-mode/helpers/cookie-helpers.ts:28-49 | the two loops compute exactly the `Changes` of the two consent maps |
| CookieHelpers.ChangesExact | src/google-consent-mode/helpers/cookie-helpers.ts:37-47 | a change is listed exactly when the category's old and new values differ, carrying those two values; each category is listed once; the number of changes is the number of differing categories |
| CookieHelpers.ChangesOfSame | src/google-consent-mode/helpers/cookie-helpers.ts:28-49 | comparing a consent map with itself gives no changes |
| CookieHelpers.ChangesSwap | src/google-consent-mode/helpers/cookie-helpers.ts:28-49 | comparing in the other direction gives the same changes with old and new swapped |
| CookieHelpers.ChangesOrder | src/google-consent-mode/helpers/cookie-helpers.ts:33-47 | changes come first in the old map's key order, then for the keys only the new map has |
| CookieHelpers.ChangesOverCount | src/google-consent-mode/helpers/cookie-helpers.ts:37-47 | over duplicate-free keys, there is one change per key whose values differ |
| CookieHelpers.Window.Gtag | src/google-consent-mode/helpers/cookie-helpers.ts:8-10 | `gtag(...args)` appends its argument list as one new entry of `dataLayer` and changes nothing else |
| CookieHelpers.CookieMonitor.constructor | src/google-consent-mode/helpers/cookie-helpers.ts:53 | the baseline starts as the current jar, with nothing dispatched or posted |
| CookieHelpers.CookieMonitor.SetCookie | src/google-consent-mode/helpers/cookie-helpers.ts:63-75 | the baseline becomes the value read back. Only when that value differs from the old baseline is the old/new pair dispatched, then posted unless `postMessage` throws; throwing skips only the post |
| CookieHelpers.CookieMonitor.OnMessage | src/google-consent-mode/helpers/cookie-helpers.ts:80-83 | a message moves the baseline to its new value and is re-dispatched unchanged, without a comparison and without being posted again |
| ConsentMode.KeysMappedToMembers | src/google-consent-mode/index.ts:105-107 | the filter keeps a gtag key exactly when the table maps it to the category |
| ConsentMode.KeysMappedToUnique | src/google-consent-mode/index.ts:105-107 | a table with unique gtag keys gives matched keys without duplicates |
| ConsentMode.KeysMappedToSpec | src/google-consent-mode/index.ts:105-107 | the filtered gtag keys are exactly those the table maps to the category, with no duplicates when the table's keys are unique |
| ConsentMode.MatchedGtagKeysSpec | src/google-consent-mode/index.ts:21-29 | the CookieYes table's matched gtag keys for a category are exactly its rows for that category, without duplicates |
| ConsentMode.TableFunctional | src/google-consent-mode/index.ts:21-29 | a table with unique gtag keys maps each gtag key to one category |
| ConsentMode.AssignAllSpec | src/google-consent-mode/index.ts:109-111 | the inner `forEach` adds exactly the matched keys; each matched key holds the decision and every other key keeps its value |
| ConsentMode.MapConsentValues | src/google-consent-mode/index.ts:102-115 | a gtag key is in the consent object exactly when its category is in the consent string; it is then "granted" exactly when that category is "yes" |
| ConsentMode.GtagConsentKeys | src/google-consent-mode/index.ts:102-115 | the consent object uses only the seven gtag consent types, each "granted" or "denied" |
| ConsentMode.GtagConsentValues | src/google-consent-mode/index.ts:102-115 | with the CookieYes table, each consent type is present exactly when its category is, and is then that category's decision |
| ConsentMode.SingleCategoryConsent | src/google-consent-mode/index.ts:93 | the object for one change maps each of its category's gtag keys, in table order, to the change's decision |
| ConsentMode.AssignFresh | src/google-consent-mode/index.ts:109-111 | assigning one decision to distinct keys of an empty object lists those keys in order |
| ConsentMode.AdvertisementConsent | src/google-consent-mode/index.ts:22-24 | the advertisement category drives `ad_storage`, `ad_user_data` and `ad_personalization`, in that order |
| ConsentMode.AnalyticsConsent | src/google-consent-mode/index.ts:25 | accepting analytics grants `analytics_storage` only |
| ConsentMode.UnmappedConsent | src/google-consent-mode/index.ts:102-115 | a category no row maps from gives an empty object |
| GoogleConsent.DefaultCommandsSound | src/google-consent-mode/index.ts:38-53 | the defaults are permitted commands that never lift redaction |
| GoogleConsent.SoundConcat | src/google-consent-mode/index.ts:91-100 | pushing one sound command list after another stays sound |
| GoogleConsent.AdvertisingGranted | src/google-consent-mode/index.ts:66-67 | an advertisement entry of "yes" grants all three advertising consent types |
| GoogleConsent.InitialCommandsSound | src/google-consent-mode/index.ts:55-69 | whatever the jar holds, the initial load pushes only permitted commands, and lifts redaction only right after an update that grants all advertising types |
| GoogleConsent.ChangeCommandSound | src/google-consent-mode/index.ts:92-98 | each change's update and possible redaction lift are sound |
| GoogleConsent.ChangeCommandsSound | src/google-consent-mode/index.ts:91-100 | any changeset's commands are sound |
| GoogleConsent.CookieChangeCommandsSound | src/google-consent-mode/index.ts:71-89 | whatever the event's jars hold, the listener's commands are sound |
| GoogleConsent.InitialCommandsSpec | src/google-consent-mode/index.ts:55-69 | the initial load pushes something exactly when the consent cookie and its action entry are both truthy. It then pushes the mapped update, and one redaction lift exactly when advertisement is "yes" |
| GoogleConsent.InitialConsentValues | src/google-consent-mode/index.ts:63-64 | in the initial update, a consent type is present exactly when its category is in the consent string, and is then that category's decision |
| GoogleConsent.ChangeCommandsConcat | src/google-consent-mode/index.ts:91-100 | the commands of two changesets in a row are the first's commands followed by the second's |
| GoogleConsent.AdvertisementGrants | src/google-consent-mode/index.ts:96 | the changes that lift redaction are exactly those setting advertisement to "yes" |
| GoogleConsent.ChangeCommandsCount | src/google-consent-mode/index.ts:91-100 | a changeset pushes one update per change, plus one redaction lift per advertisement grant |
| GoogleConsent.ChangeCommandsAt | src/google-consent-mode/index.ts:92-98 | the i-th change's update comes right after the earlier changes' commands; a redaction lift follows it when the change sets advertisement to "yes", and otherwise the change contributes that update alone |
| GoogleConsent.CookieChangeCommandsSpec | src/google-consent-mode/index.ts:71-89 | the listener pushes nothing exactly when a consent cookie is falsy on either side, nothing changed, or the first change is `action`/`consent`. Otherwise it pushes one command per change plus one per advertisement grant |
| GoogleConsent.SameConsentPushesNothing | src/google-consent-mode/index.ts:74-84 | an event whose consent cookie keeps its value pushes nothing |
| GoogleConsent.GoogleConsentMode.constructor | src/google-consent-mode/index.ts:31-36 | the data layer gains the defaults, then the initial commands for the jar; the detector's baseline is the jar; the invariant holds |
| GoogleConsent.GoogleConsentMode.SetupDefaultGtagConsent | src/google-consent-mode/index.ts:38-53 | the data layer gains exactly the default consent, redaction on, and passthrough on, in that order |
| GoogleConsent.GoogleConsentMode.InitialPageLoad | src/google-consent-mode/index.ts:55-69 | the data layer gains exactly the initial commands for the jar |
| GoogleConsent.GoogleConsentMode.PushConsentUpdate | src/google-consent-mode/index.ts:64-68 | the data layer gains the update, then the redaction lift when asked |
| GoogleConsent.GoogleConsentMode.MatchConsentToGtag | src/google-consent-mode/index.ts:102-115 | the outer loop builds `MapConsent` of the consent string |
| GoogleConsent.GoogleConsentMode.AssignDecision | src/google-consent-mode/index.ts:109-111 | the inner loop assigns the decision to the matched keys in order |
| GoogleConsent.GoogleConsentMode.OnCookieChange | src/google-consent-mode/index.ts:72-88 | the listener appends exactly one event's commands and keeps the soundness invariant |
| GoogleConsent.GoogleConsentMode.HandleCookieChange | src/google-consent-mode/index.ts:73-87 | parsing, diffing and the three early returns append exactly `CookieChangeCommands` of the event |
| GoogleConsent.GoogleConsentMode.UpdateSpecificGtagConsent | src/google-consent-mode/index.ts:91-100 | the loop appends exactly the changeset's commands, change by change |
| GoogleConsent.GoogleConsentMode.SetCookie | src/google-consent-mode/helpers/cookie-helpers.ts:63-75 | a write in this tab moves the baseline. Only on a change does it dispatch and post, and the listener appends that event's commands; the invariant holds |
| GoogleConsent.GoogleConsentMode.ReceiveMessage | src/google-consent-mode/helpers/cookie-helpers.ts:80-83 | a message from another tab moves the baseline and re-dispatches; the listener appends the commands for the payload's two jars; the invariant holds |
| Scenarios.ConsentJarCookie | src/google-consent-mode/index.ts:56-60 | a jar holding `cookieyes-consent=k:v,...` yields that non-empty consent string, which parses back to its fields |
| Scenarios.InitialLoadOfFields | src/google-consent-mode/index.ts:55-69 | when the consent cookie parses to given fields, the page pushes an update exactly when `action` is non-empty. It then pushes the mapped fields and a redaction lift exactly when advertisement is "yes" |
| Scenarios.ChangeBetweenConsentJars | src/google-consent-mode/index.ts:72-88 | an event between two CookieYes jars pushes the commands of the changes between their fields, unless nothing changed or the first change is `action`/`consent` |
| Scenarios.AdvertisementAccepted | src/google-consent-mode/index.ts:91-100 | accepting advertisement grants the three advertising types, then lifts redaction |
| Scenarios.AdvertisementWithdrawn | src/google-consent-mode/index.ts:91-100 | any other advertisement value denies the three advertising types and leaves redaction alone |
| Scenarios.AnalyticsAccepted | src/google-consent-mode/index.ts:91-100 | accepting analytics pushes one update granting `analytics_storage` |
| Scenarios.UnmappedCategoryChanged | src/google-consent-mode/index.ts:91-100 | a change of an unmapped category pushes one empty consent update |

## Left out

- Browser glue is not modelled: `Object.getOwnPropertyDescriptor`, `Object.defineProperty` on `Document.prototype`, `CustomEvent`, `addEventListener`, `dispatchEvent` and `BroadcastChannel`. The model keeps what they carry: the native write's read-back value is an input of `SetCookie`, dispatching an event is recorded in `dispatched` and delivered to `OnCookieChange`, and posting a message is recorded in `posted`.
- CookieHelpers.CookieMonitor.SetCookie: an exception from `postMessage` is the input flag `postThrows`. The thrown exception is the `thrown` result rather than a real exception.
- GoogleConsent.GoogleConsentMode.SetCookie: the dispatch is synchronous and the listener cannot throw. Listener exceptions are not modelled, because the modelled listener is total.
- Delivery between tabs is not modelled. Each tab is its own `GoogleConsentMode`, and `ReceiveMessage` is one delivered message; the channel's ordering and timing are not captured.
- `window.dataLayer = window.dataLayer || []`: an unset data layer is modelled as the empty list. A data layer that holds a non-array value is not modelled.
- Objects are ordered association lists with string keys. JavaScript's ordering of integer-like keys before other keys in `Object.keys` is not modelled, and neither are the special keys `__proto__` and inherited prototype properties.
- GoogleConsent.InitialCommandsSpec: it writes out the meaning of `InitialCommands` as an if-and-only-if, close to the function's own control flow; the lemmas with proof work about the same commands are `InitialConsentValues`, `InitialCommandsSound` and `Scenarios.InitialLoadOfFields`.
- GoogleConsent.GoogleConsentMode.SetCookie: the source dispatches (and so runs the listener) before it posts and moves `lastCookie`; the model records the post and moves the baseline first, then runs the listener. No modelled state tells the two orders apart, because the listener only appends to the data layer and never writes `document.cookie`.
- The round trips (`CookieRoundTrip`, `DetailsRoundTrip`, `ConsentJarCookie`) require a non-empty list of entries with unique keys. No key or value may contain the separators (`=` and `;` in a jar, `:` and `,` in a consent string). Consent keys and values must also have no whitespace at either end, because parsing trims them. The parsers themselves are total, and anything else is covered by `CookieEntryShape`, `DetailEntryShape` and `ParseCookiesEmpty`.
- Scenarios: a single lemma that goes from CookieYes fields straight to the initial commands is not stated. It is the composition of `ConsentJarCookie` and `InitialLoadOfFields`.
