/** Which subscription documents are accepted, item by item and value by value (`subscriptions.py`). */
module SubscriptionLaws {
  import opened Strings
  import opened PythonText
  import opened JsonValue
  import opened JsonPaths
  import opened SubscriptionTags

  // ------------------------------------------------------------------------------ values

  /** A text that is not blank and, stripped, not too long. */
  predicate Filled(value: Json<string>) {
    value.Str? && Strip(value.text) != "" && |Strip(value.text)| <= 8192
  }

  /** A single value that may stand anywhere in a document. */
  predicate Small(value: Json<string>) {
    match value
    case Str(s) => |s| <= 8192
    case Array(items) => |items| <= 128
    case Object(fields) => |fields| <= 128 && forall k :: k in fields ==> Filled(Str(k))
    case _ => true
  }

  /** Every value inside is small, and none lies deeper than `most`. */
  ghost predicate SmallEverywhere(value: Json<string>, most: int) {
    forall path :: At(value, path).Some? ==> |path| <= most && Small(At(value, path).value)
  }

  lemma PartsAreSmall(value: Json<string>, most: int, place: Place<string>)
    requires SmallEverywhere(value, most) && At(value, [place]).Some?
    ensures SmallEverywhere(At(value, [place]).value, most - 1)
  {
    var part := At(value, [place]).value;
    forall path | At(part, path).Some? ensures |path| <= most - 1 && Small(At(part, path).value) {
      assert ([place] + path)[1..] == path && [place][1..] == [];
      assert At(value, [place] + path) == At(part, path);
    }
  }

  lemma SmallFromParts(value: Json<string>, most: int)
    requires most >= 0 && Small(value)
    requires forall place :: At(value, [place]).Some? ==> SmallEverywhere(At(value, [place]).value, most - 1)
    ensures SmallEverywhere(value, most)
  {
    forall path | At(value, path).Some? ensures |path| <= most && Small(At(value, path).value) {
      if path != [] {
        assert [path[0]][1..] == [];
        assert At(value, [path[0]]).Some?;
        assert At(At(value, [path[0]]).value, path[1..]) == At(value, path);
      }
    }
  }

  lemma PartBelow(value: Json<string>, k: string)
    requires value.Object? && k in value.fields
    ensures At(value, [Below(k)]) == Some(value.fields[k])
  {
    assert [Below(k)][1..] == [];
  }

  lemma PartAt(value: Json<string>, i: nat)
    requires value.Array? && i < |value.items|
    ensures At(value, [Item(i)]) == Some(value.items[i])
  {
    var path: seq<Place<string>> := [Item(i)];
    assert path[1..] == [];
  }

  lemma ValidHasParts(value: Json<string>, depth: nat, place: Place<string>)
    requires ValidValue(value, depth) && At(value, [place]).Some?
    ensures ValidValue(At(value, [place]).value, depth + 1)
  {
    match place
    case Below(k) => PartBelow(value, k);
    case Item(i) => PartAt(value, i);
  }

  lemma ValidIsSmall(value: Json<string>, depth: nat)
    requires ValidValue(value, depth)
    ensures depth <= 12 && Small(value)
  {
    if value.Object? {
      forall k | k in value.fields ensures Filled(Str(k)) {
        FilledIsText(Str(k));
      }
    }
  }

  lemma {:induction false} ValidIsSmallEverywhere(value: Json<string>, depth: nat)
    requires depth <= 13 && ValidValue(value, depth)
    ensures SmallEverywhere(value, 12 - depth)
    decreases 13 - depth
  {
    ValidIsSmall(value, depth);
    forall place | At(value, [place]).Some? ensures SmallEverywhere(At(value, [place]).value, 11 - depth) {
      ValidHasParts(value, depth, place);
      ValidIsSmallEverywhere(At(value, [place]).value, depth + 1);
    }
    SmallFromParts(value, 12 - depth);
  }

  lemma {:induction false} SmallEverywhereIsValid(value: Json<string>, depth: nat)
    requires depth <= 13 && SmallEverywhere(value, 12 - depth)
    ensures ValidValue(value, depth)
    decreases 13 - depth
  {
    assert At(value, []) == Some(value);
    forall place | At(value, [place]).Some? ensures ValidValue(At(value, [place]).value, depth + 1) {
      PartsAreSmall(value, 12 - depth, place);
      SmallEverywhereIsValid(At(value, [place]).value, depth + 1);
    }
    ValidFromParts(value, depth);
  }

  /** The recursive check passes exactly the values that are small everywhere and at most twelve levels deep. */
  lemma ValidValueExactly(value: Json<string>)
    ensures ValidValue(value, 0) <==> SmallEverywhere(value, 12)
  {
    if ValidValue(value, 0) {
      ValidIsSmallEverywhere(value, 0);
    }
    if SmallEverywhere(value, 12) {
      SmallEverywhereIsValid(value, 0);
    }
  }

  lemma FilledIsText(value: Json<string>)
    ensures Text(value).Some? <==> Filled(value)
    ensures Text(value).Some? ==> Text(value).value == Strip(value.text)
  {
  }

  lemma ValidFromParts(value: Json<string>, depth: nat)
    requires depth <= 12 && Small(value)
    requires forall place :: At(value, [place]).Some? ==> ValidValue(At(value, [place]).value, depth + 1)
    ensures ValidValue(value, depth)
  {
    match value
    case Array(items) =>
      forall i | 0 <= i < |items| ensures ValidValue(items[i], depth + 1) {
        PartAt(value, i);
      }
    case Object(fields) =>
      forall k | k in fields ensures Text(Str(k)).Some? && ValidValue(fields[k], depth + 1) {
        PartBelow(value, k);
        FilledIsText(Str(k));
      }
    case _ =>
  }

  // ------------------------------------------------------------------------------- items

  /** A usable port; texts count by what `int` makes of them, truth values not at all. */
  lemma PortMeans(py: Python, value: Json<string>)
    ensures ValidPort(py, value) <==> !value.Bool? && exists n :: 1 <= n <= 65535 && py.toInt(value) == Some(n)
  {
  }

  predicate Has(item: Json<string>, key: string)
    requires item.Object?
  {
    Text(Get(item, key)).Some?
  }

  /** The lower-case type of an item that has one. */
  function Kind(py: Python, item: Json<string>): string
    requires item.Object? && Has(item, "type")
  {
    py.lower(Text(Get(item, "type")).value)
  }

  /** What an item of each format must have, apart from a name of its own. */
  predicate Acceptable(py: Python, format: Format, item: Json<string>) {
    && item.Object?
    && match format
       case Sip008 => AcceptableServer(py, item)
       case Clash => Has(item, "type") && AcceptableProxy(py, item, Kind(py, item))
       case SingBox => Has(item, "type") && AcceptableOutbound(item, Kind(py, item))
  }

  predicate AcceptableServer(py: Python, item: Json<string>)
    requires item.Object?
  {
    && Has(item, "server") && ValidPort(py, Get(item, "server_port")) && Has(item, "method") && Has(item, "password")
    && ValidValue(item, 0)
  }

  predicate AcceptableProxy(py: Python, item: Json<string>, kind: string)
    requires item.Object?
  {
    && Has(item, "name") && Has(item, "server") && ValidPort(py, Get(item, "port")) && ValidValue(item, 0)
    && HasSecret(item, kind)
  }

  predicate HasSecret(item: Json<string>, kind: string)
    requires item.Object?
  {
    if kind == "ss" || kind == "shadowsocks" then Has(item, "cipher") && Has(item, "password")
    else
      && (kind == "trojan" || kind == "vmess" || kind == "vless")
      && if Truthy(Get(item, "password")) then Has(item, "password") else Has(item, "uuid")
  }

  /** Control outbounds and reserved tags are passed over; any other outbound is a node. */
  predicate AcceptableOutbound(item: Json<string>, kind: string)
    requires item.Object?
  {
    || kind in CONTROL
    || (&& kind in SUPPORTED
        && ("tag" in item.fields ==> Has(item, "tag"))
        && (("tag" in item.fields && Text(Get(item, "tag")).value in RESERVED) || ValidValue(item, 0)))
  }

  /** The name of a node: its own, or "subscription-" and its number among the nodes. */
  function NameOf(py: Python, format: Format, item: Json<string>, before: nat): string
    requires item.Object?
  {
    var own := OwnTag(py, item, TagKey(format));
    if own == "" then "subscription-" + Decimal(before + 1) else own
  }

  /** The names of the nodes, in order. */
  function Names(py: Python, format: Format, items: seq<Json<string>>): (names: seq<string>)
    ensures |names| == NodeCount(py, format, items)
  {
    if items == [] then []
    else
      var n := |items| - 1;
      var before := Names(py, format, items[..n]);
      if !IsNode(py, format, items[n]) then before
      else before + [NameOf(py, format, items[n], |before|)]
  }

  ghost predicate AllAcceptable(py: Python, format: Format, items: seq<Json<string>>) {
    forall i :: 0 <= i < |items| ==> Acceptable(py, format, items[i])
  }

  /** The items pass: each is acceptable, and except in SIP008 the names differ and there are not too many. */
  ghost predicate Pass(py: Python, format: Format, items: seq<Json<string>>) {
    && AllAcceptable(py, format, items)
    && (format != Sip008 ==> AllDiffer(Names(py, format, items)))
    && (format == SingBox ==> |Names(py, format, items)| <= 128)
  }

  ghost predicate SameNames(tags: set<string>, names: seq<string>) {
    |tags| == |names| && forall t :: t in tags <==> t in names
  }

  ghost predicate PassesNext(py: Python, format: Format, names: seq<string>, item: Json<string>) {
    && Acceptable(py, format, item)
    && (IsNode(py, format, item) ==>
          && (format != Sip008 ==> NameOf(py, format, item, |names|) !in names)
          && (format == SingBox ==> |names| < 128))
  }

  lemma AllAcceptableSnoc(py: Python, format: Format, items: seq<Json<string>>)
    requires items != []
    ensures var n := |items| - 1;
            AllAcceptable(py, format, items)
            <==> AllAcceptable(py, format, items[..n]) && Acceptable(py, format, items[n])
  {
    assert forall i :: 0 <= i < |items| - 1 ==> items[..|items| - 1][i] == items[i];
  }

  /** One more item passes exactly when it is acceptable, new and within the limit. */
  lemma PassSnoc(py: Python, format: Format, items: seq<Json<string>>)
    requires items != []
    ensures var n := |items| - 1;
            Pass(py, format, items)
            <==> Pass(py, format, items[..n]) && PassesNext(py, format, Names(py, format, items[..n]), items[n])
  {
    var n := |items| - 1;
    AllAcceptableSnoc(py, format, items);
    if IsNode(py, format, items[n]) {
      var names := Names(py, format, items[..n]);
      var name := NameOf(py, format, items[n], |names|);
      assert Names(py, format, items) == names + [name];
      DifferSnoc(names, name);
    } else {
      assert Names(py, format, items) == Names(py, format, items[..n]);
    }
  }

  lemma SecretMeans(item: Json<string>, kind: string)
    requires item.Object?
    ensures HasSecret(item, kind) <==> kind in CLASH_SUPPORTED && ClashSecret(item, kind)
  {
  }

  lemma ProxyPasses(py: Python, names: set<string>, item: Json<string>)
    ensures ValidatedProxy(py, names, item).Ok?
            <==> Acceptable(py, Clash, item) && Text(Get(item, "name")).value !in names
  {
    if item.Object? && Has(item, "type") {
      SecretMeans(item, Kind(py, item));
    }
  }

  lemma ProxyNamed(py: Python, names: set<string>, item: Json<string>)
    ensures ValidatedProxy(py, names, item).Ok?
            <==> Acceptable(py, Clash, item) && NameOf(py, Clash, item, |names|) !in names
    ensures ValidatedProxy(py, names, item).Ok? ==>
              ValidatedProxy(py, names, item).value == names + {NameOf(py, Clash, item, |names|)}
  {
    ProxyPasses(py, names, item);
    if item.Object? && Has(item, "name") {
      TakenName(py, item);
    }
  }

  lemma TakenName(py: Python, item: Json<string>)
    requires item.Object? && Has(item, "name")
    ensures OwnTag(py, item, "name") == Text(Get(item, "name")).value != ""
  {
  }

  lemma ServerPasses(py: Python, tags: set<string>, item: Json<string>)
    ensures ValidatedItem(py, Sip008, tags, item).Ok? <==> Acceptable(py, Sip008, item)
  {
  }

  lemma OutboundPasses(py: Python, tags: set<string>, item: Json<string>)
    requires |tags| <= 128 && (item.Object? ==> "tag" in item.fields || Text(Str(Generated(|tags| + 1))).Some?)
    ensures ValidatedOutbound(py, tags, item).Ok? <==>
              && Acceptable(py, SingBox, item)
              && (Kind(py, item) in CONTROL
                  || var tag := Text(if "tag" in item.fields then item.fields["tag"] else Str(Generated(|tags| + 1)));
                     tag.value in RESERVED || (|tags| < 128 && tag.value !in tags))
  {
  }

  /** The validator, midway: it goes on exactly while the items pass, and then holds their names. */
  ghost predicate Midway(py: Python, format: Format, items: seq<Json<string>>) {
    var v := ValidatedItems(py, format, items);
    && (v.Ok? <==> Pass(py, format, items))
    && (v.Ok? && format != Sip008 ==> SameNames(v.value, Names(py, format, items)))
  }

  lemma SameNamesSnoc(tags: set<string>, names: seq<string>, name: string)
    requires SameNames(tags, names) && name !in names
    ensures SameNames(tags + {name}, names + [name])
  {
    assert name !in tags;
  }

  lemma NextProxy(py: Python, items: seq<Json<string>>)
    requires items != [] && Midway(py, Clash, items[..|items| - 1])
    ensures Midway(py, Clash, items)
  {
    var n := |items| - 1;
    var names := Names(py, Clash, items[..n]);
    PassSnoc(py, Clash, items);
    if Pass(py, Clash, items[..n]) {
      var tags := ValidatedItems(py, Clash, items[..n]).value;
      ProxyNamed(py, tags, items[n]);
      if Pass(py, Clash, items) {
        SameNamesSnoc(tags, names, NameOf(py, Clash, items[n], |names|));
      }
    }
  }

  lemma NextServer(py: Python, items: seq<Json<string>>)
    requires items != [] && Midway(py, Sip008, items[..|items| - 1])
    ensures Midway(py, Sip008, items)
  {
    var n := |items| - 1;
    PassSnoc(py, Sip008, items);
    if Pass(py, Sip008, items[..n]) {
      ServerPasses(py, ValidatedItems(py, Sip008, items[..n]).value, items[n]);
    }
  }

  lemma OutboundNamed(py: Python, tags: set<string>, item: Json<string>)
    requires |tags| <= 128
    ensures ValidatedOutbound(py, tags, item).Ok? <==>
              && Acceptable(py, SingBox, item)
              && (IsNode(py, SingBox, item) ==> |tags| < 128 && NameOf(py, SingBox, item, |tags|) !in tags)
    ensures ValidatedOutbound(py, tags, item).Ok? ==>
              ValidatedOutbound(py, tags, item).value
              == if IsNode(py, SingBox, item) then tags + {NameOf(py, SingBox, item, |tags|)} else tags
  {
    GeneratedIsText(|tags| + 1);
    OutboundPasses(py, tags, item);
    if item.Object? {
      TagsAgree(py, item, |tags| + 1);
      KindsAgree(py, item);
    }
  }

  lemma NextOutbound(py: Python, items: seq<Json<string>>)
    requires items != [] && Midway(py, SingBox, items[..|items| - 1])
    ensures Midway(py, SingBox, items)
  {
    var n := |items| - 1;
    var names := Names(py, SingBox, items[..n]);
    PassSnoc(py, SingBox, items);
    if Pass(py, SingBox, items[..n]) {
      var tags := ValidatedItems(py, SingBox, items[..n]).value;
      OutboundNamed(py, tags, items[n]);
      if Pass(py, SingBox, items) && IsNode(py, SingBox, items[n]) {
        SameNamesSnoc(tags, names, NameOf(py, SingBox, items[n], |names|));
      }
    }
  }

  lemma {:induction false} ItemsPass(py: Python, format: Format, items: seq<Json<string>>)
    ensures Midway(py, format, items)
  {
    if items != [] {
      ItemsPass(py, format, items[..|items| - 1]);
      match format
      case SingBox => NextOutbound(py, items);
      case Sip008 => NextServer(py, items);
      case Clash => NextProxy(py, items);
    }
  }

  // --------------------------------------------------------------------------- documents

  /** Where the items of a subscription are: in `servers` of a JSON object that has them, else in the JSON array itself
      or in `outbounds`; in `proxies` of the YAML document when the text is no JSON value. */
  predicate Lists(json: Option<Json<string>>, yaml: Option<Json<string>>, format: Format, items: seq<Json<string>>) {
    if json.Some? && json.value != Null then
      if json.value.Object? && "servers" in json.value.fields then
        format == Sip008 && json.value.fields["servers"] == Array(items)
      else if json.value.Array? then format == SingBox && json.value == Array(items)
      else
        && format == SingBox && json.value.Object? && "outbounds" in json.value.fields
        && json.value.fields["outbounds"] == Array(items)
    else
      && format == Clash && yaml.Some? && yaml.value.Object? && "proxies" in yaml.value.fields
      && yaml.value.fields["proxies"] == Array(items)
  }

  /** A list of items that makes a usable subscription. */
  ghost predicate Usable(py: Python, format: Format, items: seq<Json<string>>) {
    && items != [] && Pass(py, format, items)
    && 1 <= |Names(py, format, items)| && (format != SingBox ==> |items| <= 128)
  }

  lemma ListsItems(json: Option<Json<string>>, yaml: Option<Json<string>>, format: Format, items: seq<Json<string>>)
    ensures Lists(json, yaml, format, items) <==>
              && format == FormatOf(json) && Document(format, json, yaml).Some?
              && ItemsOf(format, Document(format, json, yaml).value) == Array(items)
  {
  }

  lemma AllNamed(py: Python, format: Format, items: seq<Json<string>>)
    requires format != SingBox && AllAcceptable(py, format, items)
    ensures |Names(py, format, items)| == |items|
  {
    ItemsAreNodes(py, format, items);
  }

  lemma {:induction false} ItemsAreNodes(py: Python, format: Format, items: seq<Json<string>>)
    requires format != SingBox && AllAcceptable(py, format, items)
    ensures NodeCount(py, format, items) == |items|
  {
    if items != [] {
      AllAcceptableSnoc(py, format, items);
      ItemsAreNodes(py, format, items[..|items| - 1]);
    }
  }

  lemma CountedExactly(py: Python, format: Format, document: Json<string>)
    requires ItemsOf(format, document).Array?
    ensures var items := ItemsOf(format, document).items;
            var r := Counted(py, format, document);
            && (r.Ok? <==> Usable(py, format, items))
            && (r.Ok? ==> r.value == |Names(py, format, items)|)
  {
    var items := ItemsOf(format, document).items;
    ItemsPass(py, format, items);
    if Pass(py, format, items) && format != SingBox {
      AllNamed(py, format, items);
    }
  }

  /** A text is accepted exactly when it lists usable items, and then its nodes are counted. */
  lemma AcceptedExactly(py: Python, json: Option<Json<string>>, yaml: Option<Json<string>>)
    ensures Inspected(py, json, yaml).Ok?
            <==> exists format, items :: Lists(json, yaml, format, items) && Usable(py, format, items)
    ensures forall format, items :: Lists(json, yaml, format, items) && Inspected(py, json, yaml).Ok? ==>
              Inspected(py, json, yaml).value == (format, |Names(py, format, items)|)
  {
    var format := FormatOf(json);
    var document := Document(format, json, yaml);
    if document.Some? && ItemsOf(format, document.value).Array? {
      ListsItems(json, yaml, format, ItemsOf(format, document.value).items);
      CountedExactly(py, format, document.value);
    }
    forall f, items | Lists(json, yaml, f, items)
      ensures f == format && document.Some? && ItemsOf(format, document.value) == Array(items)
    {
      ListsItems(json, yaml, f, items);
    }
  }

  lemma {:induction false} ItemsAreNoProfile(py: Python, format: Format, items: seq<Json<string>>)
    ensures ValidatedItems(py, format, items) != Err(ProfileUnsupported)
  {
    if items != [] {
      ItemsAreNoProfile(py, format, items[..|items| - 1]);
    }
  }

  predicate Providers(value: Json<string>) {
    value.Object? && value.fields != map[]
  }

  /** A YAML profile without proxies that names proxy providers, under the first of two spellings that says anything,
      is told apart from a document that is no subscription. */
  lemma ProfilesAreTold(py: Python, yaml: Json<string>)
    ensures Counted(py, Clash, yaml) == Err(ProfileUnsupported) <==>
              && yaml.Object?
              && !(Get(yaml, "proxies").Array? && Get(yaml, "proxies") != Array([]))
              && (Providers(Get(yaml, "proxy-providers"))
                  || (!Truthy(Get(yaml, "proxy-providers")) && Providers(Get(yaml, "proxy_providers"))))
  {
    var items := ItemsOf(Clash, yaml);
    if items.Array? {
      ItemsAreNoProfile(py, Clash, items.items);
    }
  }
}
