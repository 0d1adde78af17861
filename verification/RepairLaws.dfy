/** What stripping and repair leave of a stored bundle, place by place and field by field (`bundles.py`). */
module RepairLaws {
  import opened Strings
  import opened JsonValue
  import opened JsonPaths
  import opened Bundles

  // ------------------------------------------------------------------------- stripping

  predicate Retiring(path: seq<Place<Key>>) {
    exists i :: 0 <= i < |path| && path[i].Below? && path[i].key.Retired?
  }

  /** The same kind of value, equal when it has no parts, with as many items when it is an array. */
  predicate Alike(a: Json<Key>, b: Json<Key>) {
    match a
    case Array(items) => b.Array? && |b.items| == |items|
    case Object(_) => b.Object?
    case _ => b == a
  }

  /** Stripping takes away exactly the places below retired keys; everything else stays where it was. */
  lemma {:induction false} StripKeepsPlaces(j: Json<Key>, path: seq<Place<Key>>)
    ensures At(Strip(j), path).Some? <==> At(j, path).Some? && !Retiring(path)
    ensures At(Strip(j), path).Some? ==> Alike(At(j, path).value, At(Strip(j), path).value)
    decreases |path|
  {
    if path != [] {
      assert Retiring(path) <==> (path[0].Below? && path[0].key.Retired?) || Retiring(path[1..]) by {
        if i :| 0 < i < |path| && path[i].Below? && path[i].key.Retired? {
          assert path[1..][i - 1] == path[i];
        }
        if i :| 0 <= i < |path[1..]| && path[1..][i].Below? && path[1..][i].key.Retired? {
          assert path[i + 1] == path[1..][i];
        }
      }
      match path[0]
      case Below(k) =>
        if j.Object? && k in j.fields {
          StripKeepsPlaces(j.fields[k], path[1..]);
        }
      case Item(i) =>
        if j.Array? && i < |j.items| {
          StripKeepsPlaces(j.items[i], path[1..]);
        }
    }
  }

  // ---------------------------------------------------------------------------- repair

  /** The selection names the subscription and one of its tags or the automatic one. */
  predicate Offers(t: TagSource, blobs: map<string, string>, b: Bundle) {
    ProxySelection in b && b[ProxySelection].Object?
    && var selection := b[ProxySelection].fields;
       var outbound := t.trim(ShowField(t, selection, Outbound));
       && t.trim(ShowField(t, selection, Group)) == "subscription" && outbound != ""
       && outbound in SelectionTags(BundleTags(t, blobs, b))
  }

  /** The selected outbound is the automatic one, which a bundle for monitor 0.6.0 may not ask for. */
  predicate AsksTooMuch(t: TagSource, blobs: map<string, string>, b: Bundle) {
    && Offers(t, blobs, b)
    && t.trim(ShowField(t, b[ProxySelection].fields, Outbound)) !in BundleTags(t, blobs, b)
    && MinMonitorVersion in b && b[MinMonitorVersion] == Str("0.6.0")
  }

  predicate SameField(a: Bundle, b: Bundle, k: Key) {
    (k in a <==> k in b) && (k in a ==> a[k] == b[k])
  }

  /** What repair makes of a bundle: retired fields go, a selection that is not offered goes, a gate that is too low
      is lifted to 0.7.0, and nothing else changes but the signature. */
  ghost predicate Repaired(t: TagSource, blobs: map<string, string>, stored: Bundle, after: Bundle) {
    var b := StripBundle(stored);
    && (forall k :: k !in {BundleHash, Mac, ProxySelection, MinMonitorVersion} ==> SameField(b, after, k))
    && (if ProxySelection in b && b[ProxySelection].Object? && !Offers(t, blobs, b) then ProxySelection !in after
        else SameField(b, after, ProxySelection))
    && (if AsksTooMuch(t, blobs, b) then MinMonitorVersion in after && after[MinMonitorVersion] == Str("0.7.0")
        else SameField(b, after, MinMonitorVersion))
  }

  lemma UnsignedRepairs(t: TagSource, blobs: map<string, string>, stored: Bundle)
    ensures var u := Unsigned(t, blobs, stored);
            Repaired(t, blobs, stored, if u.Some? then u.value else stored)
  {
    StripBundleFixes(stored);
  }

  lemma SigningRepairs(c: Crypto, secret: string, t: TagSource, blobs: map<string, string>, stored: Bundle, b: Bundle)
    requires Repaired(t, blobs, stored, b)
    ensures Repaired(t, blobs, stored, Sign(c, secret, b))
  {
    SignKeepsFields(c, secret, b);
    var before, after := StripBundle(stored), Sign(c, secret, b);
    forall k | k !in {BundleHash, Mac, ProxySelection, MinMonitorVersion} ensures SameField(before, after, k) {
      assert SameField(before, b, k) && k != BundleHash && k != Mac;
    }
  }

  lemma RepairExactly(c: Crypto, secret: string, t: TagSource, blobs: map<string, string>, d: Stored)
    ensures Repaired(t, blobs, d.bundle, Repair(c, secret, t, blobs, d).bundle)
  {
    UnsignedRepairs(t, blobs, d.bundle);
    var u := Unsigned(t, blobs, d.bundle);
    if u.Some? {
      SigningRepairs(c, secret, t, blobs, d.bundle, u.value);
    }
  }

  // ------------------------------------------------------------------- the tags on offer

  /** Where the tags of a bundle come from: the inlined content when it is a text, else the stored content of that
      hash, else there are none. */
  lemma TagsComeFrom(t: TagSource, blobs: map<string, string>, b: Bundle, fields: map<Key, Json<Key>>, format: string)
    requires Subscription in b && b[Subscription] == Object(fields)
    requires Format in fields && fields[Format] == Str(format)
    ensures forall text :: Content in fields && fields[Content] == Str(text) ==>
              BundleTags(t, blobs, b) == t.parse(text, format)
    ensures forall hash :: hash != "" && Content !in fields && ContentHash in fields && fields[ContentHash] == Str(hash)
              ==> BundleTags(t, blobs, b) == if hash in blobs then t.parse(blobs[hash], format) else {}
    ensures Content !in fields && ContentHash !in fields ==> BundleTags(t, blobs, b) == {}
  {
  }
}
