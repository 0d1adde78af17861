/** Desired bundles as JSON trees: signing and verifying (`crypto.py`), removal of retired fields and
    repair of stale proxy selections (`bundles.py`). */
module Bundles {
  import opened Strings
  import opened JsonValue

  datatype RetiredField =
    | AllowCidrs | DenyDestinations | DenySources | AclNote | AclSources | EffectiveCidrs | SourceBlacklist

  /** Object keys; the ones the control plane looks at have names of their own. */
  datatype Key =
    | Retired(field: RetiredField)
    | BundleHash | Mac | DesiredVersion | ReleaseId | SiteId | NodeId | Shutdown | MinMonitorVersion
    | Subscription | VersionId | ContentHash | Format | Content
    | ProxySelection | Group | Outbound
    | RoutingPolicy
    | Other(name: string)

  type Bundle = map<Key, Json<Key>>

  /** SHA-256 and HMAC over canonical JSON, and `str()` of a value that is not a string. */
  datatype Crypto = Crypto(hash: Bundle -> string, mac: (string, Bundle) -> string, show: Json<Key> -> string)

  // ------------------------------------------------------------------ sign and verify

  /** `str(bundle.get(key, ""))`. */
  function Text(c: Crypto, b: Bundle, key: Key): string {
    if key !in b then "" else match b[key] case Str(s) => s case other => c.show(other)
  }

  function CalculateHash(c: Crypto, b: Bundle): string {
    c.hash(b - {BundleHash, Mac})
  }

  function Sign(c: Crypto, secret: string, b: Bundle): Bundle {
    var signed := b[BundleHash := Str(CalculateHash(c, b))];
    signed[Mac := Str(c.mac(secret, signed - {Mac}))]
  }

  datatype Verification = Verified | HashMismatch | MacMismatch

  function Verify(c: Crypto, secret: string, b: Bundle): Verification {
    if Text(c, b, BundleHash) != CalculateHash(c, b) then HashMismatch
    else if Text(c, b, Mac) != c.mac(secret, b - {Mac}) then MacMismatch
    else Verified
  }

  /** Whatever signature a bundle carried before, the freshly signed one verifies and differs from
      the input in the two signature fields only. */
  lemma SignedVerifies(c: Crypto, secret: string, b: Bundle)
    ensures Verify(c, secret, Sign(c, secret, b)) == Verified
    ensures Sign(c, secret, b) - {BundleHash, Mac} == b - {BundleHash, Mac}
  {
    var signed := Sign(c, secret, b);
    var hashed := b[BundleHash := Str(CalculateHash(c, b))];
    assert signed - {BundleHash, Mac} == b - {BundleHash, Mac};
    assert signed - {Mac} == hashed - {Mac};
  }

  /** With a MAC that never repeats, two bundles that verify and carry the same MAC are the same
      bundle: no signed field can be changed and still verify. */
  lemma MacPinsBundle(c: Crypto, secret: string, a: Bundle, b: Bundle)
    requires forall x, y :: c.mac(secret, x) == c.mac(secret, y) ==> x == y
    requires Verify(c, secret, a) == Verified && Verify(c, secret, b) == Verified
    requires Mac in a && Mac in b && a[Mac] == b[Mac]
    ensures a == b
  {
    assert a - {Mac} == b - {Mac};
    forall k | k in a
      ensures k in b && a[k] == b[k]
    {
      assert k == Mac || k in a - {Mac};
    }
    forall k | k in b
      ensures k in a
    {
      assert k == Mac || k in b - {Mac};
    }
  }

  // -------------------------------------------------------------------- retired fields

  /** `strip_retired_policy_fields`. */
  function Strip(j: Json<Key>): Json<Key> {
    match j
    case Array(items) => Array(seq(|items|, i requires 0 <= i < |items| => Strip(items[i])))
    case Object(fields) => Object(map k | k in fields && !k.Retired? :: Strip(fields[k]))
    case _ => j
  }

  function StripBundle(b: Bundle): Bundle {
    map k | k in b && !k.Retired? :: Strip(b[k])
  }

  /** No retired key is left at any depth. */
  predicate Clean(j: Json<Key>) {
    match j
    case Array(items) => forall i :: 0 <= i < |items| ==> Clean(items[i])
    case Object(fields) => forall k :: k in fields ==> !k.Retired? && Clean(fields[k])
    case _ => true
  }

  predicate CleanBundle(b: Bundle) {
    forall k :: k in b ==> !k.Retired? && Clean(b[k])
  }

  lemma {:induction false} StripCleans(j: Json<Key>)
    ensures Clean(Strip(j))
  {
    match j
    case Array(items) =>
      forall i | 0 <= i < |items| ensures Clean(Strip(items[i])) { StripCleans(items[i]); }
    case Object(fields) =>
      forall k | k in fields ensures Clean(Strip(fields[k])) { StripCleans(fields[k]); }
    case _ =>
  }

  /** Stripping is the identity exactly on data without retired keys. */
  lemma {:induction false} StripFixes(j: Json<Key>)
    ensures Strip(j) == j <==> Clean(j)
  {
    match j
    case Array(items) =>
      forall i | 0 <= i < |items| ensures Strip(items[i]) == items[i] <==> Clean(items[i]) { StripFixes(items[i]); }
      if Strip(j) == j {
        forall i | 0 <= i < |items| ensures Clean(items[i]) { assert Strip(j).items[i] == items[i]; }
      }
      assert Clean(j) ==> Strip(j).items == items;
    case Object(fields) =>
      forall k | k in fields ensures Strip(fields[k]) == fields[k] <==> Clean(fields[k]) { StripFixes(fields[k]); }
      if Strip(j) == j {
        forall k | k in fields ensures !k.Retired? && Clean(fields[k]) {
          assert k in Strip(j).fields && Strip(j).fields[k] == fields[k];
        }
      }
      assert Clean(j) ==> Strip(j).fields == fields;
    case _ =>
  }

  lemma StripBundleFixes(b: Bundle)
    ensures StripBundle(b) == b <==> CleanBundle(b)
    ensures CleanBundle(StripBundle(b))
  {
    assert Strip(Object(b)) == Object(StripBundle(b));
    StripFixes(Object(b));
    StripCleans(Object(b));
  }

  lemma SignKeepsClean(c: Crypto, secret: string, b: Bundle)
    requires CleanBundle(b)
    ensures CleanBundle(Sign(c, secret, b))
  {
  }

  // ------------------------------------------------------------------- the "auto" tag

  function AutoName(n: nat): string {
    if n == 0 then "auto" else "auto-" + Decimal(n)
  }

  lemma AutoNameInjective(m: nat, n: nat)
    requires AutoName(m) == AutoName(n)
    ensures m == n
  {
    assert |AutoName(0)| == 4;
    if m != 0 && n != 0 {
      assert AutoName(m)[5..] == Decimal(m) && AutoName(n)[5..] == Decimal(n);
      DecimalInjective(m, n);
    }
  }

  lemma {:induction false} AutoNamesFill(tags: set<string>, n: nat)
    requires forall k :: 0 <= k < n ==> AutoName(k) in tags
    ensures n <= |tags|
  {
    if n > 0 {
      var last := AutoName(n - 1);
      forall k | 0 <= k < n - 1
        ensures AutoName(k) in tags - {last}
      {
        if AutoName(k) == last {
          AutoNameInjective(k, n - 1);
        }
      }
      AutoNamesFill(tags - {last}, n - 1);
    }
  }

  /** The number of the first automatic name outside the set. */
  function FirstFree(tags: set<string>, n: nat): (free: nat)
    requires forall k :: 0 <= k < n ==> AutoName(k) in tags
    ensures n <= free <= |tags|
    ensures AutoName(free) !in tags
    ensures forall k :: 0 <= k < free ==> AutoName(k) in tags
    decreases |tags| + 1 - n
  {
    AutoNamesFill(tags, n);
    if AutoName(n) !in tags then n else AutoNamesFill(tags, n + 1); FirstFree(tags, n + 1)
  }

  function SelectionTags(tags: set<string>): set<string> {
    if tags == {} then {} else tags + {AutoName(FirstFree(tags, 0))}
  }

  /** `subscription_selection_tags`: the search ends within |tags| + 1 names, outside the set. */
  method SubscriptionSelectionTags(tags: set<string>) returns (r: set<string>)
    ensures r == SelectionTags(tags)
    ensures tags == {} <==> r == {}
    ensures tags != {} && "auto" !in tags ==> r == tags + {"auto"}
    ensures "auto" in tags ==>
              exists n: nat :: n >= 1 && "auto-" + Decimal(n) !in tags && r == tags + {"auto-" + Decimal(n)}
                && forall k :: 1 <= k < n ==> "auto-" + Decimal(k) in tags
  {
    if tags == {} {
      return {};
    }
    var auto := "auto";
    var suffix := 1;
    while auto in tags
      invariant suffix >= 1 && auto == AutoName(suffix - 1)
      invariant forall k :: 0 <= k < suffix - 1 ==> AutoName(k) in tags
      decreases |tags| + 1 - suffix
    {
      AutoNamesFill(tags, suffix);
      auto := "auto-" + Decimal(suffix);
      suffix := suffix + 1;
    }
    FirstFreeIs(tags, suffix - 1);
    assert forall k :: 1 <= k < suffix - 1 ==> "auto-" + Decimal(k) == AutoName(k);
    r := tags + {auto};
  }

  lemma FirstFreeIs(tags: set<string>, n: nat)
    requires AutoName(n) !in tags && forall k :: 0 <= k < n ==> AutoName(k) in tags
    ensures FirstFree(tags, 0) == n
  {
    var free := FirstFree(tags, 0);
  }

  // ------------------------------------------------------- tags a bundle can select from

  /** `subscription_outbound_tags` and the stored contents by content hash. */
  datatype TagSource = TagSource(parse: (string, string) -> set<string>, show: Json<Key> -> string,
                                 trim: string -> string)

  function ShowField(t: TagSource, fields: map<Key, Json<Key>>, key: Key): string {
    if key !in fields then "" else match fields[key] case Str(s) => s case other => t.show(other)
  }

  /** `_bundle_subscription_tags`: from the inlined content, else from the blob of that hash. */
  function BundleTags(t: TagSource, blobs: map<string, string>, b: Bundle): set<string> {
    if Subscription !in b || !b[Subscription].Object? then {}
    else
      var sub := b[Subscription].fields;
      var format := ShowField(t, sub, Format);
      if Content in sub && sub[Content].Str? then t.parse(sub[Content].text, format)
      else
        var hash := ShowField(t, sub, ContentHash);
        if hash == "" || hash !in blobs then {} else t.parse(blobs[hash], format)
  }

  // ---------------------------------------------------------------------------- repair

  /** The bundle to re-sign and store, or `None` when the stored one is left alone. */
  function Unsigned(t: TagSource, blobs: map<string, string>, stored: Bundle): Option<Bundle> {
    var repaired := StripBundle(stored);
    var changed := repaired != stored;
    if ProxySelection !in repaired || !repaired[ProxySelection].Object? then
      if changed then Some(repaired) else None
    else
      var selection := repaired[ProxySelection].fields;
      var group := t.trim(ShowField(t, selection, Group));
      var outbound := t.trim(ShowField(t, selection, Outbound));
      var outboundTags := BundleTags(t, blobs, repaired);
      var tags := SelectionTags(outboundTags);
      if group == "subscription" && outbound != "" && outbound in tags then
        var lift := outbound !in outboundTags && MinMonitorVersion in repaired
          && repaired[MinMonitorVersion] == Str("0.6.0");
        if lift then Some(repaired[MinMonitorVersion := Str("0.7.0")])
        else if changed then Some(repaired) else None
      else Some(repaired - {ProxySelection})
  }

  /** A stored desired release as far as serving it is concerned. */
  datatype Stored = Stored(bundle: Bundle, bundleHash: string)

  /** `repair_stale_proxy_selection`. */
  function Repair(c: Crypto, secret: string, t: TagSource, blobs: map<string, string>, d: Stored): Stored {
    match Unsigned(t, blobs, d.bundle)
    case None => d
    case Some(b) =>
      var signed := Sign(c, secret, b);
      Stored(signed, Text(c, signed, BundleHash))
  }

  /** Stored bundles verify, and the stored hash is the one inside the bundle. */
  predicate Authentic(c: Crypto, secret: string, d: Stored) {
    Verify(c, secret, d.bundle) == Verified && d.bundleHash == Text(c, d.bundle, BundleHash)
  }

  /** A selection object names a tag that the bundle's own subscription offers. */
  predicate SelectionOffered(t: TagSource, blobs: map<string, string>, b: Bundle) {
    ProxySelection in b && b[ProxySelection].Object? ==>
      var selection := b[ProxySelection].fields;
      && t.trim(ShowField(t, selection, Group)) == "subscription"
      && t.trim(ShowField(t, selection, Outbound)) in SelectionTags(BundleTags(t, blobs, b))
  }

  predicate Settled(t: TagSource, blobs: map<string, string>, b: Bundle) {
    Unsigned(t, blobs, b) == None
  }

  /** A bundle is left alone exactly when it is clean, offers its own selection, and does not ask an
      old monitor for the automatic outbound. */
  lemma SettledIff(t: TagSource, blobs: map<string, string>, b: Bundle)
    ensures Settled(t, blobs, b) <==>
            && CleanBundle(b)
            && SelectionOffered(t, blobs, b)
            && (ProxySelection in b && b[ProxySelection].Object? ==>
                  var outbound := t.trim(ShowField(t, b[ProxySelection].fields, Outbound));
                  && outbound != ""
                  && (outbound in BundleTags(t, blobs, b)
                      || MinMonitorVersion !in b || b[MinMonitorVersion] != Str("0.6.0")))
  {
    StripBundleFixes(b);
  }

  /** The bundles of `SettledIff`, by way of two cases: without a selection, or with one that is offered
      and not gated. */
  lemma SettledWithoutSelection(t: TagSource, blobs: map<string, string>, b: Bundle)
    requires CleanBundle(b) && !(ProxySelection in b && b[ProxySelection].Object?)
    ensures Settled(t, blobs, b)
  {
    StripBundleFixes(b);
  }

  lemma SettledWithSelection(t: TagSource, blobs: map<string, string>, b: Bundle, outbound: string)
    requires CleanBundle(b) && ProxySelection in b && b[ProxySelection].Object?
    requires outbound == t.trim(ShowField(t, b[ProxySelection].fields, Outbound)) && outbound != ""
    requires SelectionOffered(t, blobs, b)
    requires outbound in BundleTags(t, blobs, b) || MinMonitorVersion !in b || b[MinMonitorVersion] != Str("0.6.0")
    ensures Settled(t, blobs, b)
  {
    StripBundleFixes(b);
  }

  lemma TagsFollowSubscription(t: TagSource, blobs: map<string, string>, a: Bundle, b: Bundle)
    requires (Subscription in a <==> Subscription in b) && (Subscription in a ==> a[Subscription] == b[Subscription])
    ensures BundleTags(t, blobs, a) == BundleTags(t, blobs, b)
  {
  }

  lemma SignKeepsFields(c: Crypto, secret: string, b: Bundle)
    ensures forall k :: k != BundleHash && k != Mac ==>
              (k in Sign(c, secret, b) <==> k in b) && (k in b ==> Sign(c, secret, b)[k] == b[k])
  {
  }

  lemma SignKeepsSettled(c: Crypto, secret: string, t: TagSource, blobs: map<string, string>, b: Bundle)
    requires Settled(t, blobs, b)
    ensures Settled(t, blobs, Sign(c, secret, b))
  {
    var signed := Sign(c, secret, b);
    SettledIff(t, blobs, b);
    SignKeepsFields(c, secret, b);
    SignKeepsClean(c, secret, b);
    TagsFollowSubscription(t, blobs, signed, b);
    if ProxySelection in b && b[ProxySelection].Object? {
      SettledWithSelection(t, blobs, signed, t.trim(ShowField(t, b[ProxySelection].fields, Outbound)));
    } else {
      SettledWithoutSelection(t, blobs, signed);
    }
  }

  /** Repair is idempotent: after one repair the bundle is settled. */
  lemma RepairSettles(c: Crypto, secret: string, t: TagSource, blobs: map<string, string>, d: Stored)
    ensures Settled(t, blobs, Repair(c, secret, t, blobs, d).bundle)
    ensures Repair(c, secret, t, blobs, Repair(c, secret, t, blobs, d)) == Repair(c, secret, t, blobs, d)
  {
    var u := Unsigned(t, blobs, d.bundle);
    if u.Some? {
      UnsignedIsFixed(t, blobs, d.bundle);
      SignKeepsSettled(c, secret, t, blobs, u.value);
    }
  }

  /** Raising the version gate settles a bundle whose selection is offered. */
  lemma LiftedIsSettled(t: TagSource, blobs: map<string, string>, b: Bundle)
    requires CleanBundle(b) && SelectionOffered(t, blobs, b) && ProxySelection in b && b[ProxySelection].Object?
    requires t.trim(ShowField(t, b[ProxySelection].fields, Outbound)) != ""
    ensures var lifted := b[MinMonitorVersion := Str("0.7.0")]; CleanBundle(lifted) && Settled(t, blobs, lifted)
  {
    var lifted := b[MinMonitorVersion := Str("0.7.0")];
    TagsFollowSubscription(t, blobs, lifted, b);
    SettledWithSelection(t, blobs, lifted, t.trim(ShowField(t, b[ProxySelection].fields, Outbound)));
  }

  lemma DroppedIsSettled(t: TagSource, blobs: map<string, string>, b: Bundle)
    requires CleanBundle(b)
    ensures CleanBundle(b - {ProxySelection}) && Settled(t, blobs, b - {ProxySelection})
  {
    SettledWithoutSelection(t, blobs, b - {ProxySelection});
  }

  lemma UnsignedIsFixed(t: TagSource, blobs: map<string, string>, stored: Bundle)
    requires Unsigned(t, blobs, stored).Some?
    ensures CleanBundle(Unsigned(t, blobs, stored).value)
    ensures Settled(t, blobs, Unsigned(t, blobs, stored).value)
  {
    var b := StripBundle(stored);
    StripBundleFixes(stored);
    if !(ProxySelection in b && b[ProxySelection].Object?) {
      SettledWithoutSelection(t, blobs, b);
    } else {
      var outbound := t.trim(ShowField(t, b[ProxySelection].fields, Outbound));
      if outbound == "" || !SelectionOffered(t, blobs, b) {
        DroppedIsSettled(t, blobs, b);
      } else if outbound !in BundleTags(t, blobs, b)
                && MinMonitorVersion in b && b[MinMonitorVersion] == Str("0.6.0") {
        LiftedIsSettled(t, blobs, b);
      } else {
        SettledWithSelection(t, blobs, b, outbound);
      }
    }
  }

  /** Every bundle handed to a monitor verifies, carries its stored hash, has no retired field left
      and selects only what its own subscription offers. */
  lemma ServedBundleIsSafe(c: Crypto, secret: string, t: TagSource, blobs: map<string, string>, d: Stored)
    requires Authentic(c, secret, d)
    ensures var served := Repair(c, secret, t, blobs, d);
            && Authentic(c, secret, served)
            && CleanBundle(served.bundle)
            && SelectionOffered(t, blobs, served.bundle)
  {
    var served := Repair(c, secret, t, blobs, d);
    RepairSettles(c, secret, t, blobs, d);
    SettledIff(t, blobs, served.bundle);
    var u := Unsigned(t, blobs, d.bundle);
    if u.Some? {
      SignedVerifies(c, secret, u.value);
    }
  }

  predicate Extends(blobs: map<string, string>, more: map<string, string>) {
    forall h :: h in blobs ==> h in more && more[h] == blobs[h]
  }

  /** A settled bundle stays settled when further contents are stored. */
  lemma SettledForGood(t: TagSource, blobs: map<string, string>, more: map<string, string>, b: Bundle)
    requires Settled(t, blobs, b) && Extends(blobs, more)
    ensures Settled(t, more, b)
  {
    SettledIff(t, blobs, b);
    SettledIff(t, more, b);
    if ProxySelection in b && b[ProxySelection].Object? {
      assert BundleTags(t, blobs, b) != {};
      assert BundleTags(t, more, b) == BundleTags(t, blobs, b);
    }
  }

  /** Repair leaves every field alone that is clean and neither signature, selection nor version gate. */
  lemma RepairKeepsField(c: Crypto, secret: string, t: TagSource, blobs: map<string, string>, d: Stored, k: Key)
    requires k !in {BundleHash, Mac, ProxySelection, MinMonitorVersion} && !k.Retired?
    requires k in d.bundle ==> Clean(d.bundle[k])
    ensures var after := Repair(c, secret, t, blobs, d).bundle;
            (k in after <==> k in d.bundle) && (k in d.bundle ==> after[k] == d.bundle[k])
  {
    if k in d.bundle {
      StripFixes(d.bundle[k]);
    }
  }
}
