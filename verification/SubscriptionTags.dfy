/** Subscription documents (`subscriptions.py`): the validator that counts their nodes and the read-only
    projection that names them for the bundle.  Documents are given parsed. */
module SubscriptionTags {
  import opened Strings
  import opened PythonText
  import opened JsonValue

  datatype Format = SingBox | Sip008 | Clash

  datatype Refusal =
    | DocumentInvalid | ProfileUnsupported | OutboundInvalid | TypeInvalid | TypeUnsupported
    | TagInvalid | FieldInvalid | ValueInvalid

  /** `str.lower`, `str` of any value and `int` of any value. */
  datatype Python = Python(lower: string -> string, show: Json<string> -> string, toInt: Json<string> -> Option<int>)

  const MAX_NODES: nat := 128
  const MAX_FIELD: nat := 8192
  const MAX_DEPTH: nat := 12
  const CONTROL := {"block", "direct", "dns", "selector", "urltest"}
  const RESERVED := {"block", "direct", "subscription"}
  const SUPPORTED := {"anytls", "http", "hysteria2", "shadowsocks", "socks", "ssh", "trojan", "tuic",
                      "vless", "vmess", "wireguard"}
  const CLASH_SUPPORTED := {"ss", "shadowsocks", "trojan", "vmess", "vless"}

  // ------------------------------------------------------------------------ field checks

  /** `_string(value, code)`: a stripped, non-empty, bounded text. */
  function Text(value: Json<string>): Option<string> {
    if !value.Str? then None
    else
      var r := Strip(value.text);
      if r == [] || |r| > MAX_FIELD then None else Some(r)
  }

  predicate ValidPort(py: Python, value: Json<string>) {
    !value.Bool? && py.toInt(value).Some? && 1 <= py.toInt(value).value <= 65535
  }

  /** `_validate_value`: bounded depth, bounded sizes, usable keys. */
  predicate ValidValue(value: Json<string>, depth: nat)
    decreases if depth > MAX_DEPTH then 0 else MAX_DEPTH + 1 - depth
  {
    depth <= MAX_DEPTH &&
    match value
    case Str(s) => |s| <= MAX_FIELD
    case Array(items) => |items| <= MAX_NODES && forall i :: 0 <= i < |items| ==> ValidValue(items[i], depth + 1)
    case Object(fields) =>
      |fields| <= MAX_NODES && forall k :: k in fields ==> Text(Str(k)).Some? && ValidValue(fields[k], depth + 1)
    case _ => true
  }

  function Generated(n: nat): string {
    "subscription-" + Decimal(n)
  }

  // ------------------------------------------------------------------------ the validator

  type Tags = Result<set<string>, Refusal>

  /** One outbound of `_validate_outbounds`, with the tags found so far. */
  function ValidatedOutbound(py: Python, tags: set<string>, item: Json<string>): Tags {
    if !item.Object? then Err(OutboundInvalid)
    else
      var kind := Text(Get(item, "type"));
      if kind.None? then Err(TypeInvalid)
      else if py.lower(kind.value) in CONTROL then Ok(tags)
      else if py.lower(kind.value) !in SUPPORTED then Err(TypeUnsupported)
      else
        var tag := Text(if "tag" in item.fields then item.fields["tag"] else Str(Generated(|tags| + 1)));
        if tag.None? then Err(TagInvalid)
        else if tag.value in RESERVED then Ok(tags)
        else if tag.value in tags then Err(TagInvalid)
        else if |tags| + 1 > MAX_NODES then Err(DocumentInvalid)
        else if !ValidValue(item, 0) then Err(ValueInvalid)
        else Ok(tags + {tag.value})
  }

  predicate ClashSecret(item: Json<string>, kind: string)
    requires item.Object?
  {
    if kind == "ss" || kind == "shadowsocks" then Text(Get(item, "cipher")).Some? && Text(Get(item, "password")).Some?
    else
      var password := Get(item, "password");
      Text(if Truthy(password) then password else Get(item, "uuid")).Some?
  }

  /** One proxy of `_parse_clash`. */
  function ValidatedProxy(py: Python, names: set<string>, item: Json<string>): Tags {
    if !item.Object? then Err(DocumentInvalid)
    else
      var kind := Text(Get(item, "type"));
      if kind.None? then Err(DocumentInvalid)
      else if py.lower(kind.value) !in CLASH_SUPPORTED then Err(TypeUnsupported)
      else
        var name := Text(Get(item, "name"));
        if name.None? then Err(DocumentInvalid)
        else if name.value in names then Err(TagInvalid)
        else if Text(Get(item, "server")).None? || !ValidPort(py, Get(item, "port"))
                || !ClashSecret(item, py.lower(kind.value)) then Err(FieldInvalid)
        else if !ValidValue(item, 0) then Err(ValueInvalid)
        else Ok(names + {name.value})
  }

  function ValidatedItem(py: Python, format: Format, tags: set<string>, item: Json<string>): Tags {
    match format
    case SingBox => ValidatedOutbound(py, tags, item)
    case Clash => ValidatedProxy(py, tags, item)
    case Sip008 =>
      if !item.Object? then Err(DocumentInvalid)
      else if Text(Get(item, "server")).None? || !ValidPort(py, Get(item, "server_port"))
              || Text(Get(item, "method")).None? || Text(Get(item, "password")).None? then Err(FieldInvalid)
      else if !ValidValue(item, 0) then Err(ValueInvalid)
      else Ok(tags)
  }

  /** The tags after all items, or the first refusal. */
  function ValidatedItems(py: Python, format: Format, items: seq<Json<string>>): Tags {
    if items == [] then Ok({})
    else
      var before := ValidatedItems(py, format, items[..|items| - 1]);
      if before.Err? then before else ValidatedItem(py, format, before.value, items[|items| - 1])
  }

  /** Where each format keeps its items. */
  function ItemsOf(format: Format, document: Json<string>): Json<string> {
    if format == SingBox && document.Array? then document
    else if !document.Object? then Null
    else Get(document, match format case SingBox => "outbounds" case Sip008 => "servers" case Clash => "proxies")
  }

  /** What `_parse_singbox`, `_parse_sip008` and `_parse_clash` record: the number of nodes. */
  function Counted(py: Python, format: Format, document: Json<string>): Result<nat, Refusal> {
    var items := ItemsOf(format, document);
    if !items.Array? || items.items == [] then
      if format == Clash && document.Object? && HasProviders(document) then Err(ProfileUnsupported)
        else Err(DocumentInvalid)
    else if format != SingBox && |items.items| > MAX_NODES then Err(DocumentInvalid)
    else
      var tags := ValidatedItems(py, format, items.items);
      if tags.Err? then Err(tags.error)
      else if format == SingBox then if tags.value == {} then Err(DocumentInvalid) else Ok(|tags.value|)
      else Ok(|items.items|)
  }

  predicate HasProviders(document: Json<string>)
    requires document.Object?
  {
    var first := Get(document, "proxy-providers");
    var providers := if Truthy(first) then first else Get(document, "proxy_providers");
    providers.Object? && providers.fields != map[]
  }

  /** The loop over the items, ended by the first refusal. */
  method ValidateItems(py: Python, format: Format, items: seq<Json<string>>) returns (r: Tags)
    ensures r == ValidatedItems(py, format, items)
  {
    var tags := {};
    for i := 0 to |items|
      invariant ValidatedItems(py, format, items[..i]) == Ok(tags)
    {
      ValidatedStep(py, format, items, i, tags);
      r := ValidatedItem(py, format, tags, items[i]);
      if r.Err? {
        RefusalStays(py, format, items, i + 1);
        return;
      }
      tags := r.value;
    }
    assert items[..|items|] == items;
    r := Ok(tags);
  }

  lemma ValidatedStep(py: Python, format: Format, items: seq<Json<string>>, i: nat, tags: set<string>)
    requires i < |items| && ValidatedItems(py, format, items[..i]) == Ok(tags)
    ensures ValidatedItems(py, format, items[..i + 1]) == ValidatedItem(py, format, tags, items[i])
  {
    TakeOneMore(items, i);
  }

  /** `_parse_singbox`, `_parse_sip008` and `_parse_clash`. */
  method CountNodes(py: Python, format: Format, document: Json<string>) returns (r: Result<nat, Refusal>)
    ensures r == Counted(py, format, document)
    ensures r.Ok? ==> 1 <= r.value <= MAX_NODES
    ensures r.Ok? ==> r.value == NodeCount(py, format, ItemsOf(format, document).items)
    ensures r.Ok? && format != Sip008 ==> r.value == |OutboundTags(py, format, Some(document))|
  {
    CountedMeans(py, format, document);
    var items := ItemsOf(format, document);
    if !items.Array? || items.items == [] {
      if format == Clash && document.Object? && HasProviders(document) {
        return Err(ProfileUnsupported);
      }
      return Err(DocumentInvalid);
    }
    if format != SingBox && |items.items| > MAX_NODES {
      return Err(DocumentInvalid);
    }
    var tags := ValidateItems(py, format, items.items);
    if tags.Err? {
      return Err(tags.error);
    }
    if format != SingBox {
      return Ok(|items.items|);
    }
    return if tags.value == {} then Err(DocumentInvalid) else Ok(|tags.value|);
  }

  lemma {:induction false} RefusalStays(py: Python, format: Format, items: seq<Json<string>>, n: nat)
    requires n <= |items| && ValidatedItems(py, format, items[..n]).Err?
    ensures ValidatedItems(py, format, items) == ValidatedItems(py, format, items[..n])
    decreases |items|
  {
    if n == |items| {
      assert items[..n] == items;
    } else {
      var init := items[..|items| - 1];
      assert init[..n] == items[..n];
      RefusalStays(py, format, init, n);
    }
  }

  /** `inspect_subscription` on the text read as JSON and as YAML: the format follows from the document. */
  function Inspected(py: Python, json: Option<Json<string>>, yaml: Option<Json<string>>): Result<(Format, nat),
                     Refusal> {
    var format := FormatOf(json);
    var document := Document(format, json, yaml);
    if document.None? then Err(DocumentInvalid)
    else
      var count := Counted(py, format, document.value);
      if count.Err? then Err(count.error) else Ok((format, count.value))
  }

  function FormatOf(json: Option<Json<string>>): Format {
    if json.None? || json.value == Null then Clash
    else if json.value.Object? && "servers" in json.value.fields then Sip008
    else SingBox
  }

  function Document(format: Format, json: Option<Json<string>>, yaml: Option<Json<string>>): Option<Json<string>> {
    if format == Clash then yaml else json
  }

  // ----------------------------------------------------------------------- the projection

  /** The tag an item asks for, empty when it has none. */
  function OwnTag(py: Python, item: Json<string>, key: string): string
    requires item.Object?
  {
    match Get(item, key)
    case Null => ""
    case Str(s) => Strip(s)
    case other => Strip(py.show(other))
  }

  function KindOf(py: Python, item: Json<string>): string
    requires item.Object?
  {
    var kind := Get(item, "type");
    py.lower(Strip(if !Truthy(kind) then "" else if kind.Str? then kind.text else py.show(kind)))
  }

  function TagKey(format: Format): string {
    match format
    case SingBox => "tag"
    case Sip008 => "remarks"
    case Clash => "name"
  }

  function ProjectedItem(py: Python, format: Format, tags: set<string>, item: Json<string>): set<string> {
    if !item.Object? then tags
    else
      var tag := OwnTag(py, item, TagKey(format));
      if format == SingBox && (KindOf(py, item) in CONTROL || tag in RESERVED) then tags
      else tags + {if tag == "" then Generated(|tags| + 1) else tag}
  }

  function ProjectedItems(py: Python, format: Format, items: seq<Json<string>>): set<string> {
    if items == [] then {}
    else ProjectedItem(py, format, ProjectedItems(py, format, items[..|items| - 1]), items[|items| - 1])
  }

  /** `subscription_outbound_tags` on the parsed document of a version. */
  function OutboundTags(py: Python, format: Format, document: Option<Json<string>>): set<string> {
    if document.None? then {}
    else
      var items := ItemsOf(format, document.value);
      if items.Array? then ProjectedItems(py, format, items.items) else {}
  }

  method SubscriptionOutboundTags(py: Python, format: Format,
                                  document: Option<Json<string>>) returns (tags: set<string>)
    ensures tags == OutboundTags(py, format, document)
  {
    tags := {};
    if document.None? {
      return;
    }
    var found := ItemsOf(format, document.value);
    if !found.Array? {
      return;
    }
    var items := found.items;
    for i := 0 to |items|
      invariant tags == ProjectedItems(py, format, items[..i])
    {
      TakeOneMore(items, i);
      tags := ProjectedItem(py, format, tags, items[i]);
    }
    assert items[..|items|] == items;
  }

  // --------------------------------------------------------------------------- agreement

  lemma GeneratedIsText(n: nat)
    requires n <= MAX_NODES + 1
    ensures Text(Str(Generated(n))) == Some(Generated(n)) && Generated(n) !in RESERVED
  {
    var g := Generated(n);
    StripTrims(g);
    assert g[0] == 's' && IsDigit(g[|g| - 1]);
    assert Pow10(3) == 1000;
    DecimalLength(n, 3);
    assert g[12] == '-' && |g| >= 14;
  }

  /** The tag the validator works with is the one the projection takes or generates. */
  lemma TagsAgree(py: Python, item: Json<string>, n: nat)
    requires item.Object? && n <= MAX_NODES + 1
    ensures var tag := Text(if "tag" in item.fields then item.fields["tag"] else Str(Generated(n)));
            var own := OwnTag(py, item, "tag");
            tag.Some? ==> tag.value == (if own == "" then Generated(n) else own)
                          && (tag.value in RESERVED <==> own in RESERVED)
  {
    GeneratedIsText(n);
  }

  lemma KindsAgree(py: Python, item: Json<string>)
    requires item.Object?
    ensures Text(Get(item, "type")).Some? ==> KindOf(py, item) == py.lower(Text(Get(item, "type")).value)
  {
  }

  predicate Unreserved(tags: set<string>) {
    forall t :: t in tags ==> t !in RESERVED
  }

  /** Where the validator goes on, it and the projection hold the same tags. */
  lemma OutboundsAgree(py: Python, tags: set<string>, item: Json<string>)
    requires |tags| <= MAX_NODES && Unreserved(tags)
    ensures var v := ValidatedOutbound(py, tags, item);
            v.Ok? ==> v.value == ProjectedItem(py, SingBox, tags, item) && |v.value| <= MAX_NODES && Unreserved(v.value)
  {
    if item.Object? {
      TagsAgree(py, item, |tags| + 1);
      KindsAgree(py, item);
    }
  }

  lemma {:induction false} OutboundListsAgree(py: Python, items: seq<Json<string>>)
    ensures var v := ValidatedItems(py, SingBox, items);
            v.Ok? ==> v.value == ProjectedItems(py, SingBox, items) && |v.value| <= MAX_NODES && Unreserved(v.value)
  {
    if items != [] {
      var n := |items| - 1;
      OutboundListsAgree(py, items[..n]);
      var before := ValidatedItems(py, SingBox, items[..n]);
      if before.Ok? {
        OutboundsAgree(py, before.value, items[n]);
      }
    }
  }

  lemma ProxiesAgree(py: Python, names: set<string>, item: Json<string>)
    ensures var v := ValidatedProxy(py, names, item);
            v.Ok? ==> v.value == ProjectedItem(py, Clash, names, item) && |v.value| == |names| + 1
  {
  }

  lemma {:induction false} ProxyListsAgree(py: Python, items: seq<Json<string>>)
    ensures var v := ValidatedItems(py, Clash, items);
            v.Ok? ==> v.value == ProjectedItems(py, Clash, items) && |v.value| == |items|
  {
    if items != [] {
      var n := |items| - 1;
      ProxyListsAgree(py, items[..n]);
      var before := ValidatedItems(py, Clash, items[..n]);
      if before.Ok? {
        ProxiesAgree(py, before.value, items[n]);
      }
    }
  }

  /** The items that are nodes: in a sing-box document those that are neither control outbounds nor reserved
      tags, elsewhere all. */
  predicate IsNode(py: Python, format: Format, item: Json<string>) {
    item.Object? && (format == SingBox ==> KindOf(py, item) !in CONTROL && OwnTag(py, item, "tag") !in RESERVED)
  }

  function NodeCount(py: Python, format: Format, items: seq<Json<string>>): nat {
    if items == [] then 0
    else NodeCount(py, format, items[..|items| - 1]) + if IsNode(py, format, items[|items| - 1]) then 1 else 0
  }

  /** Every node adds a tag of its own, nothing else does. */
  lemma NodeAddsTag(py: Python, tags: set<string>, item: Json<string>)
    requires |tags| <= MAX_NODES
    ensures var v := ValidatedOutbound(py, tags, item);
            v.Ok? ==> |v.value| == |tags| + if IsNode(py, SingBox, item) then 1 else 0
  {
    if item.Object? {
      TagsAgree(py, item, |tags| + 1);
      KindsAgree(py, item);
    }
  }

  lemma {:induction false} TagsCountNodes(py: Python, items: seq<Json<string>>)
    ensures var v := ValidatedItems(py, SingBox, items);
            v.Ok? ==> |v.value| == NodeCount(py, SingBox, items)
  {
    if items != [] {
      var n := |items| - 1;
      TagsCountNodes(py, items[..n]);
      OutboundListsAgree(py, items[..n]);
      var before := ValidatedItems(py, SingBox, items[..n]);
      if before.Ok? {
        NodeAddsTag(py, before.value, items[n]);
      }
    }
  }

  lemma {:induction false} AllAreNodes(py: Python, format: Format, items: seq<Json<string>>)
    requires format != SingBox && ValidatedItems(py, format, items).Ok?
    ensures NodeCount(py, format, items) == |items|
  {
    if items != [] {
      AllAreNodes(py, format, items[..|items| - 1]);
    }
  }

  /** An accepted document has between 1 and 128 nodes, and the recorded count is their number; for sing-box
      and Clash it is also the number of tags the projection finds. */
  lemma CountedMeans(py: Python, format: Format, document: Json<string>)
    ensures var r := Counted(py, format, document);
            r.Ok? ==>
              && 1 <= r.value <= MAX_NODES
              && r.value == NodeCount(py, format, ItemsOf(format, document).items)
              && (format != Sip008 ==> r.value == |OutboundTags(py, format, Some(document))|)
  {
    if Counted(py, format, document).Ok? {
      var items := ItemsOf(format, document).items;
      if format == SingBox {
        OutboundListsAgree(py, items);
        TagsCountNodes(py, items);
      } else {
        AllAreNodes(py, format, items);
        if format == Clash {
          ProxyListsAgree(py, items);
        }
      }
    }
  }

  /** For every sing-box or Clash text the inspection accepts, the projection gives exactly the tags the
      validator built, generated names included, and as many as the recorded node count. */
  lemma ProjectionAgrees(py: Python, json: Option<Json<string>>, yaml: Option<Json<string>>)
    requires Inspected(py, json, yaml).Ok? && FormatOf(json) != Sip008
    ensures var (format, count) := Inspected(py, json, yaml).value;
            var document := Document(format, json, yaml);
            var tags := OutboundTags(py, format, document);
            && ValidatedItems(py, format, ItemsOf(format, document.value).items) == Ok(tags)
            && |tags| == count >= 1
            && (format == SingBox ==> Unreserved(tags))
  {
    var format := FormatOf(json);
    var items := ItemsOf(format, Document(format, json, yaml).value).items;
    if format == SingBox {
      OutboundListsAgree(py, items);
    } else {
      ProxyListsAgree(py, items);
    }
  }

  // --------------------------------------------------------------------------- SIP008

  /** The name of the server at a position: its remarks, or the generated name of that position. */
  function Label(py: Python, server: Json<string>, i: nat): string
    requires server.Object?
  {
    var tag := OwnTag(py, server, "remarks");
    if tag == "" then Generated(i + 1) else tag
  }

  predicate Objects(items: seq<Json<string>>) {
    forall i :: 0 <= i < |items| ==> items[i].Object?
  }

  function Labels(py: Python, servers: seq<Json<string>>): (labels: seq<string>)
    requires Objects(servers)
    ensures |labels| == |servers|
  {
    if servers == [] then []
    else
      var n := |servers| - 1;
      Labels(py, servers[..n]) + [Label(py, servers[n], n)]
  }

  predicate AllDiffer(labels: seq<string>) {
    forall i, j :: 0 <= i < j < |labels| ==> labels[i] != labels[j]
  }

  /** The size of a tag set tells whether the labels it was built from differ. */
  ghost predicate CountTells(labels: seq<string>, tags: set<string>) {
    && |tags| <= |labels|
    && (|tags| == |labels| <==> AllDiffer(labels))
    && (|tags| == |labels| ==> forall t :: t in tags <==> t in labels)
  }

  lemma DifferSnoc(labels: seq<string>, last: string)
    ensures AllDiffer(labels + [last]) <==> AllDiffer(labels) && last !in labels
  {
    var all := labels + [last];
    assert all[|labels|] == last;
    if AllDiffer(all) {
      forall i, j | 0 <= i < j < |labels| ensures labels[i] != labels[j] {
        assert all[i] != all[j];
      }
      forall i | 0 <= i < |labels| ensures labels[i] != last {
        assert all[i] != all[|labels|];
      }
    }
  }

  lemma CountTellsMore(labels: seq<string>, tags: set<string>, last: string, tag: string)
    requires CountTells(labels, tags) && (|tags| == |labels| ==> tag == last)
    ensures CountTells(labels + [last], tags + {tag})
  {
    DifferSnoc(labels, last);
    if tag in tags {
      assert tags + {tag} == tags;
    } else {
      assert |tags + {tag}| == |tags| + 1;
    }
  }

  lemma {:induction false} Sip008Tags(py: Python, servers: seq<Json<string>>)
    requires Objects(servers)
    ensures CountTells(Labels(py, servers), ProjectedItems(py, Sip008, servers))
  {
    if servers != [] {
      var n := |servers| - 1;
      Sip008Tags(py, servers[..n]);
      var before, own := ProjectedItems(py, Sip008, servers[..n]), OwnTag(py, servers[n], "remarks");
      CountTellsMore(Labels(py, servers[..n]), before, Label(py, servers[n], n),
                     if own == "" then Generated(|before| + 1) else own);
    }
  }

  lemma {:induction false} ServersAreObjects(py: Python, servers: seq<Json<string>>)
    requires ValidatedItems(py, Sip008, servers).Ok?
    ensures Objects(servers)
  {
    if servers != [] {
      InitLast(servers);
      ServersAreObjects(py, servers[..|servers| - 1]);
    }
  }

  /** SIP008 remarks may repeat, so there the projection can be smaller than the recorded count: the two
      agree exactly when the servers' names, or the names generated for their positions, all differ. */
  lemma Sip008AgreesExactly(py: Python, json: Option<Json<string>>, yaml: Option<Json<string>>)
    requires Inspected(py, json, yaml).Ok? && FormatOf(json) == Sip008
    ensures var servers := ItemsOf(Sip008, json.value).items;
            && Objects(servers)
            && |OutboundTags(py, Sip008, json)| <= Inspected(py, json, yaml).value.1
            && (|OutboundTags(py, Sip008, json)| == Inspected(py, json, yaml).value.1 <==>
                  AllDiffer(Labels(py, servers)))
  {
    var servers := ItemsOf(Sip008, json.value).items;
    ServersAreObjects(py, servers);
    Sip008Tags(py, servers);
  }
}
