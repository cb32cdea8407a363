/**
 * The default landing page plugin: option defaulting, assembly of the page's
 * configuration record, its triple encoding and the HTML document around it.
 * The plugin's closures (fixed options, then the host's graph reference, then a
 * render) are modelled as one pure function of the options and the graph reference.
 */
module LandingPage {
  import opened Wrappers
  import opened Json
  import Uri

  // ---------------------------------------------------------------------------
  // Options and their defaults

  /**
   * A property of a JavaScript object: not there at all, there and `undefined`,
   * or there with a value. The spread `{ ...options }` copies a property that is
   * there even when its value is `undefined`.
   */
  datatype Prop<T> = Missing | Undefined | Has(value: T)

  /** The caller's options object, with the internal Studio environment as `studioEnv`. */
  datatype Options = Options(version: Prop<string>, isProd: Prop<bool>, studioEnv: Prop<string>)

  /** The three constants the plugin destructures; `None` is `undefined`. */
  datatype Settings = Settings(version: Option<string>, isProd: Option<bool>, studioEnv: Option<string>)

  const LatestVersion: string := "_latest"

  /** The value of `{ ...base, ...{ key: over } }` at `key`. */
  function Spread<T>(base: Prop<T>, over: Prop<T>): Prop<T> {
    if over.Missing? then base else over
  }

  /** The property's value; `None` both when it is missing and when it is `undefined`. */
  function ValueOf<T>(p: Prop<T>): Option<T> {
    match p
    case Has(v) => Some(v)
    case _ => None
  }

  /**
   * `const { version, isProd, __internal_apolloStudioEnv__ } = { version: '_latest', ...options }`.
   * The default version is used exactly when there are no options or they have no
   * `version` property; an explicit `version: undefined` stays `undefined`. The other
   * two have no default.
   */
  function Resolve(options: Option<Options>): (r: Settings)
    ensures (options.None? || options.value.version.Missing?) ==> r.version == Some(LatestVersion)
    ensures options.Some? && options.value.version.Has? ==> r.version == Some(options.value.version.value)
    ensures options.Some? && options.value.version.Undefined? ==> r.version.None?
    ensures r.isProd.Some? <==> options.Some? && options.value.isProd.Has?
    ensures r.isProd.Some? ==> r.isProd.value == options.value.isProd.value
    ensures r.studioEnv.Some? <==> options.Some? && options.value.studioEnv.Has?
    ensures r.studioEnv.Some? ==> r.studioEnv.value == options.value.studioEnv.value
  {
    var merged :=
      if options.None? then Options(Has(LatestVersion), Missing, Missing)
      else Options(Spread(Has(LatestVersion), options.value.version),
                   Spread(Missing, options.value.isProd),
                   Spread(Missing, options.value.studioEnv));
    Settings(ValueOf(merged.version), ValueOf(merged.isProd), ValueOf(merged.studioEnv))
  }

  // ---------------------------------------------------------------------------
  // The configuration record and its JSON text

  datatype Config = Config(graphRef: Option<string>, isProd: Option<bool>, apolloStudioEnv: Option<string>)

  const GraphRefKey: string := "graphRef"
  const IsProdKey: string := "isProd"
  const StudioEnvKey: string := "apolloStudioEnv"

  /** `{ graphRef, isProd, apolloStudioEnv: __internal_apolloStudioEnv__ }`. */
  function AssembleConfig(s: Settings, graphRef: Option<string>): Config {
    Config(graphRef, s.isProd, s.studioEnv)
  }

  /** Position of a key in the object literal; 3 for any other key. */
  function KeyRank(key: string): nat {
    if key == GraphRefKey then 0 else if key == IsProdKey then 1 else if key == StudioEnvKey then 2 else 3
  }

  function StringMember(key: string, v: Option<string>): seq<Member> {
    if v.Some? then [Member(key, JString(v.value))] else []
  }

  function BoolMember(key: string, v: Option<bool>): seq<Member> {
    if v.Some? then [Member(key, JBool(v.value))] else []
  }

  function AsString(v: Option<string>): Option<Value> {
    if v.Some? then Some(JString(v.value)) else None
  }

  function AsBool(v: Option<bool>): Option<Value> {
    if v.Some? then Some(JBool(v.value)) else None
  }

  /**
   * The members `JSON.stringify` writes for the record: the three keys in the
   * order of the object literal, a field that is `undefined` left out.
   */
  function Members(c: Config): (ms: seq<Member>)
    ensures forall i, j :: 0 <= i < j < |ms| ==> KeyRank(ms[i].key) < KeyRank(ms[j].key)
    ensures forall i :: 0 <= i < |ms| ==> KeyRank(ms[i].key) < 3
  {
    StringMember(GraphRefKey, c.graphRef) + BoolMember(IsProdKey, c.isProd) + StringMember(StudioEnvKey, c.apolloStudioEnv)
  }

  lemma LookupSingle(ms: seq<Member>, key: string)
    requires |ms| <= 1
    ensures Lookup(ms, key) == if ms != [] && ms[0].key == key then Some(ms[0].value) else None
  {
    if ms != [] {
      assert ms[1..] == [];
    }
  }

  /** Each key of the record's JSON text carries its field's value, and an `undefined` field has no key. */
  lemma MembersCarryFields(c: Config)
    ensures Lookup(Members(c), GraphRefKey) == AsString(c.graphRef)
    ensures Lookup(Members(c), IsProdKey) == AsBool(c.isProd)
    ensures Lookup(Members(c), StudioEnvKey) == AsString(c.apolloStudioEnv)
  {
    var g, p, e := StringMember(GraphRefKey, c.graphRef), BoolMember(IsProdKey, c.isProd), StringMember(StudioEnvKey, c.apolloStudioEnv);
    forall key | key in {GraphRefKey, IsProdKey, StudioEnvKey}
      ensures Lookup(Members(c), key) == if Lookup(e, key).Some? then Lookup(e, key) else if Lookup(p, key).Some? then Lookup(p, key) else Lookup(g, key)
    {
      LookupConcat(g + p, e, key);
      LookupConcat(g, p, key);
    }
    LookupSingle(g, GraphRefKey); LookupSingle(p, GraphRefKey); LookupSingle(e, GraphRefKey);
    LookupSingle(g, IsProdKey); LookupSingle(p, IsProdKey); LookupSingle(e, IsProdKey);
    LookupSingle(g, StudioEnvKey); LookupSingle(p, StudioEnvKey); LookupSingle(e, StudioEnvKey);
  }

  /** `JSON.stringify(config)`. */
  function JsonOfConfig(c: Config): string {
    ObjectText(Members(c))
  }

  /** A string property of the parsed object: `Some(None)` when absent, `None` when of another type. */
  function StringField(ms: seq<Member>, key: string): Option<Option<string>> {
    match Lookup(ms, key)
    case None => Some(None)
    case Some(JString(s)) => Some(Some(s))
    case Some(JBool(_)) => None
  }

  function BoolField(ms: seq<Member>, key: string): Option<Option<bool>> {
    match Lookup(ms, key)
    case None => Some(None)
    case Some(JBool(b)) => Some(Some(b))
    case Some(JString(_)) => None
  }

  /** The record the consumer reads off the parsed object; keys it does not know are ignored. */
  function ConfigOfMembers(ms: seq<Member>): Option<Config> {
    match (StringField(ms, GraphRefKey), BoolField(ms, IsProdKey), StringField(ms, StudioEnvKey))
    case (Some(g), Some(p), Some(e)) => Some(Config(g, p, e))
    case _ => None
  }

  /** `JSON.parse(text)` read as a configuration record. */
  function ParseConfig(text: string): Option<Config> {
    match ParseObject(text)
    case None => None
    case Some(ms) => ConfigOfMembers(ms)
  }

  /** Parsing the JSON text of a record gives the record back, omitted fields still absent. */
  lemma ConfigJsonRoundTrip(c: Config)
    ensures ParseConfig(JsonOfConfig(c)) == Some(c)
  {
    ParseObjectText(Members(c));
    MembersReadBack(c);
  }

  lemma MembersReadBack(c: Config)
    ensures ConfigOfMembers(Members(c)) == Some(c)
  {
    var ms := Members(c);
    MembersCarryFields(c);
    assert StringField(ms, GraphRefKey) == Some(c.graphRef);
    assert BoolField(ms, IsProdKey) == Some(c.isProd);
    assert StringField(ms, StudioEnvKey) == Some(c.apolloStudioEnv);
  }

  // ---------------------------------------------------------------------------
  // The triple encoding

  /** `JSON.stringify(encodeURIComponent(json))`. */
  function EncodeText(json: string): string {
    Quote(Uri.PercentEncode(json))
  }

  /** `JSON.stringify(encodeURIComponent(JSON.stringify(config)))`. */
  function EncodeConfig(c: Config): string {
    EncodeText(JsonOfConfig(c))
  }

  /** The consumer's `JSON.parse(decodeURIComponent(s))`. */
  function DecodePayload(s: string): Option<Config> {
    match Uri.PercentDecode(s)
    case None => None
    case Some(json) => ParseConfig(json)
  }

  /**
   * What the page's script sees: the value of the string literal `literal`, which
   * must be the whole of it, decoded.
   */
  function DecodeEmbedded(literal: string): Option<Config> {
    match ParseString(literal)
    case None => None
    case Some((s, n)) => if n == |literal| then DecodePayload(s) else None
  }

  /**
   * The outer `JSON.stringify` only wraps the percent-encoded text in a pair of
   * double quotes; inside them are only unreserved characters and well-formed escapes.
   */
  lemma OuterQuotingIsTrivial(json: string)
    ensures var p := Uri.PercentEncode(json);
      && EncodeText(json) == "\"" + p + "\""
      && (forall i :: 0 <= i < |p| ==> Uri.InEncodedAlphabet(p[i]))
      && Uri.WellFormedEscapes(p)
  {
    var p := Uri.PercentEncode(json);
    forall i | 0 <= i < |p| ensures !NeedsEscape(p[i]) {
      assert Uri.InEncodedAlphabet(p[i]);
    }
    QuoteBodyIdentity(p);
  }

  /**
   * The encoded text holds no `<`, `>`, `&` or backslash, and a double quote only
   * as its first and last character.
   */
  lemma EncodedTextIsInert(json: string)
    ensures var e := EncodeText(json);
      && |e| >= 2 && e[0] == '"' && e[|e| - 1] == '"'
      && (forall i :: 0 < i < |e| - 1 ==> !Uri.IsSignificant(e[i]))
  {
    OuterQuotingIsTrivial(json);
    var p := Uri.PercentEncode(json);
    var e := EncodeText(json);
    forall i | 0 < i < |e| - 1 ensures e[i] == p[i - 1] {
    }
  }

  /**
   * Script parsing of the encoded literal stops at its closing quote, whatever
   * follows, and percent-decoding its value gives back the JSON text.
   */
  lemma EncodeTextRoundTrip(json: string, rest: string)
    ensures ParseString(EncodeText(json) + rest) == Some((Uri.PercentEncode(json), |EncodeText(json)|))
    ensures Uri.PercentDecode(Uri.PercentEncode(json)) == Some(json)
  {
    ParseQuote(Uri.PercentEncode(json), rest);
    Uri.DecodeEncodeRoundTrip(json);
  }

  /** Reading the embedded literal back gives the configuration that was encoded. */
  lemma EncodeConfigRoundTrip(c: Config)
    ensures DecodeEmbedded(EncodeConfig(c)) == Some(c)
  {
    ConfigJsonRoundTrip(c);
    EmbeddedRoundTrip(JsonOfConfig(c), c);
  }

  lemma EmbeddedRoundTrip(json: string, c: Config)
    requires ParseConfig(json) == Some(c)
    ensures DecodeEmbedded(EncodeText(json)) == Some(c)
  {
    EncodeTextRoundTrip(json, []);
    assert EncodeText(json) + [] == EncodeText(json);
  }

  // ---------------------------------------------------------------------------
  // The HTML document

  /** A piece of a template literal: fixed text, or a `${version}` or `${encodedConfig}` substitution. */
  datatype Segment = Lit(text: string) | VersionHole | ConfigHole

  function SegmentText(s: Segment, version: string, encodedConfig: string): string {
    match s
    case Lit(t) => t
    case VersionHole => version
    case ConfigHole => encodedConfig
  }

  /** A template literal evaluated: the substitutions are inserted as they are, with no escaping. */
  function Fill(t: seq<Segment>, version: string, encodedConfig: string): string
    decreases |t|
  {
    if t == [] then [] else SegmentText(t[0], version, encodedConfig) + Fill(t[1..], version, encodedConfig)
  }

  lemma {:induction false} FillConcat(a: seq<Segment>, b: seq<Segment>, version: string, encodedConfig: string)
    ensures Fill(a + b, version, encodedConfig) == Fill(a, version, encodedConfig) + Fill(b, version, encodedConfig)
    decreases |a|
  {
    if a != [] {
      assert (a + b)[0] == a[0];
      assert (a + b)[1..] == a[1..] + b;
      FillConcat(a[1..], b, version, encodedConfig);
    } else {
      assert a + b == b;
    }
  }

  /** Text with no `${encodedConfig}` does not depend on the configuration. */
  lemma {:induction false} FillWithoutConfig(t: seq<Segment>, version: string, e1: string, e2: string)
    requires forall i :: 0 <= i < |t| ==> t[i] != ConfigHole
    ensures Fill(t, version, e1) == Fill(t, version, e2)
    decreases |t|
  {
    if t != [] {
      FillWithoutConfig(t[1..], version, e1, e2);
    }
  }

  const CdnBase: string := "https://apollo-server-landing-page.cdn.apollographql.com/"
  const FaviconPath: string := "/assets/favicon.png"
  const ManifestPath: string := "/manifest.json"
  const MainScriptPath: string := "/static/js/main.js"
  const ScriptOpen: string := "<script>window.landingPage = "
  const ScriptClose: string := ";</script>"

  function AssetUrl(version: string, path: string): string {
    CdnBase + version + path
  }

  /** The fixed text of the template literal, between the substitutions and the URL parts around them. */
  const Markup0: string :=
    "\n"
    + "<!DOCTYPE html>\n"
    + "<html lang=\"en\">\n"
    + "  <head>\n"
    + "    <meta charset=\"utf-8\" />\n"
    + "    <link\n"
    + "      rel=\"icon\"\n"
    + "      href="

  const Markup1: string :=
    "\n"
    + "    />\n"
    + "    <meta name=\"viewport\" content=\"width=device-width,initial-scale=1\" />\n"
    + "    <link rel=\"preconnect\" href=\"https://fonts.gstatic.com\" />\n"
    + "    <link\n"
    + "      href=\"https://fonts.googleapis.com/css2?family=Source+Sans+Pro&display=swap\"\n"
    + "      rel=\"stylesheet\"\n"
    + "    />\n"
    + "    <meta name=\"theme-color\" content=\"#000000\" />\n"
    + "    <meta name=\"description\" content=\"Apollo server landing page\" />\n"
    + "    <link\n"
    + "      rel=\"apple-touch-icon\"\n"
    + "      href="

  const Markup2: string :=
    "\n"
    + "    />\n"
    + "    <link\n"
    + "      rel=\"manifest\"\n"
    + "      href="

  const Markup3: string :=
    "\n"
    + "    />\n"
    + "    <title>Apollo Server</title>\n"
    + "  </head>\n"
    + "  <body style=\"margin: 0; overflow-x: hidden; overflow-y: hidden\">\n"
    + "    <noscript>You need to enable JavaScript to run this app.</noscript>\n"
    + "    <div id=\"react-root\" style=\"width: 100vw; height: 100vh\"></div>\n"
    + "    "

  const Markup4: string :=
    "\n"
    + "    <script src="

  const Markup5: string :=
    "></script>\n"
    + "  </body>\n"
    + "</html>\n"
    + "          "

  /** The opening of a quoted CDN URL, up to the version. */
  const UrlStart: string := "\"" + CdnBase

  /** A path and the quote that ends its URL. */
  function UrlEnd(path: string): string {
    path + "\""
  }

  const Text0: string := Markup0 + UrlStart
  const Text1: string := UrlEnd(FaviconPath) + (Markup1 + UrlStart)
  const Text2: string := UrlEnd(FaviconPath) + (Markup2 + UrlStart)
  const Text3: string := UrlEnd(ManifestPath) + (Markup3 + ScriptOpen)
  const Text4: string := ScriptClose + (Markup4 + UrlStart)
  const Text5: string := UrlEnd(MainScriptPath) + Markup5

  /** The page's template literal. */
  const PageTemplate: seq<Segment> :=
    [Lit(Text0), VersionHole, Lit(Text1), VersionHole, Lit(Text2), VersionHole,
     Lit(Text3), ConfigHole, Lit(Text4), VersionHole, Lit(Text5)]

  /** Where the configuration goes: after the fixed text that opens its script. */
  const ConfigSlot: nat := 7

  predicate EndsWith(s: string, suffix: string) {
    |suffix| <= |s| && s[|s| - |suffix|..] == suffix
  }

  predicate StartsWith(s: string, prefix: string) {
    |prefix| <= |s| && s[..|prefix|] == prefix
  }

  lemma EndsWithConcat(a: string, b: string)
    ensures EndsWith(a + b, b)
  {
    assert (a + b)[|a + b| - |b|..] == b;
  }

  lemma EndsWithConcat3(a: string, b: string, c: string)
    ensures EndsWith(a + (b + c), c)
  {
    assert a + (b + c) == (a + b) + c;
    EndsWithConcat(a + b, c);
  }

  lemma StartsWithConcat(a: string, b: string)
    ensures StartsWith(a + b, a)
  {
    assert (a + b)[..|a|] == a;
  }

  /** At index `i` the template reads `"` + CdnBase + `${version}` + path + `"`. */
  predicate AssetUrlAt(t: seq<Segment>, i: int, path: string) {
    && 0 < i < |t| - 1
    && t[i] == VersionHole
    && t[i - 1].Lit? && EndsWith(t[i - 1].text, UrlStart)
    && t[i + 1].Lit? && StartsWith(t[i + 1].text, UrlEnd(path))
  }

  /** The version is substituted at four places and the configuration at one. */
  lemma PageTemplateHoles()
    ensures forall i :: 0 <= i < |PageTemplate| ==> (PageTemplate[i] == VersionHole <==> i == 1 || i == 3 || i == 5 || i == 9)
    ensures forall i :: 0 <= i < |PageTemplate| ==> (PageTemplate[i] == ConfigHole <==> i == ConfigSlot)
  {
  }

  lemma UrlAt1()
    ensures AssetUrlAt(PageTemplate, 1, FaviconPath)
  {
    EndsWithConcat(Markup0, UrlStart);
    StartsWithConcat(UrlEnd(FaviconPath), Markup1 + UrlStart);
  }

  lemma UrlAt3()
    ensures AssetUrlAt(PageTemplate, 3, FaviconPath)
  {
    EndsWithConcat3(UrlEnd(FaviconPath), Markup1, UrlStart);
    StartsWithConcat(UrlEnd(FaviconPath), Markup2 + UrlStart);
  }

  lemma UrlAt5()
    ensures AssetUrlAt(PageTemplate, 5, ManifestPath)
  {
    EndsWithConcat3(UrlEnd(FaviconPath), Markup2, UrlStart);
    StartsWithConcat(UrlEnd(ManifestPath), Markup3 + ScriptOpen);
  }

  lemma UrlAt9()
    ensures AssetUrlAt(PageTemplate, 9, MainScriptPath)
  {
    EndsWithConcat3(ScriptClose, Markup4, UrlStart);
    StartsWithConcat(UrlEnd(MainScriptPath), Markup5);
  }

  /** Every `${version}` of the template sits inside one of the CDN asset URLs. */
  lemma VersionOnlyInAssetUrls()
    ensures forall i :: 0 <= i < |PageTemplate| && PageTemplate[i] == VersionHole ==>
      AssetUrlAt(PageTemplate, i, FaviconPath) || AssetUrlAt(PageTemplate, i, ManifestPath) || AssetUrlAt(PageTemplate, i, MainScriptPath)
  {
    PageTemplateHoles();
    UrlAt1();
    UrlAt3();
    UrlAt5();
    UrlAt9();
  }

  lemma ConfigSlotText()
    ensures PageTemplate[ConfigSlot - 1].Lit? && EndsWith(PageTemplate[ConfigSlot - 1].text, ScriptOpen)
    ensures PageTemplate[ConfigSlot + 1].Lit? && StartsWith(PageTemplate[ConfigSlot + 1].text, ScriptClose)
  {
    EndsWithConcat3(UrlEnd(ManifestPath), Markup3, ScriptOpen);
    StartsWithConcat(ScriptClose, Markup4 + UrlStart);
  }

  /** The template literal at index.ts:60-94, evaluated. */
  function RenderHtml(version: string, encodedConfig: string): string {
    Fill(PageTemplate, version, encodedConfig)
  }

  /** The document up to the configuration; it depends on the version only. */
  function PageHead(version: string): string {
    Fill(PageTemplate[..ConfigSlot], version, [])
  }

  /** The document after the configuration; it depends on the version only. */
  function PageTail(version: string): string {
    Fill(PageTemplate[ConfigSlot + 1..], version, [])
  }

  /** A template with a single `${encodedConfig}` at `k` reads: the text before it, the configuration, the text after it. */
  lemma FillAroundConfig(t: seq<Segment>, k: nat, version: string, encodedConfig: string)
    requires k < |t| && t[k] == ConfigHole
    requires forall i :: 0 <= i < |t| && i != k ==> t[i] != ConfigHole
    ensures Fill(t, version, encodedConfig) == Fill(t[..k], version, []) + encodedConfig + Fill(t[k + 1..], version, [])
  {
    var before, after := t[..k], t[k + 1..];
    assert t == before + ([ConfigHole] + after);
    FillConcat(before, [ConfigHole] + after, version, encodedConfig);
    assert ([ConfigHole] + after)[1..] == after;
    FillWithoutConfig(before, version, encodedConfig, []);
    FillWithoutConfig(after, version, encodedConfig, []);
  }

  lemma FillEndsWithLast(t: seq<Segment>, version: string, encodedConfig: string)
    requires t != [] && t[|t| - 1].Lit?
    ensures EndsWith(Fill(t, version, encodedConfig), t[|t| - 1].text)
  {
    var n := |t| - 1;
    assert t == t[..n] + [t[n]];
    FillConcat(t[..n], [t[n]], version, encodedConfig);
    assert Fill([t[n]], version, encodedConfig) == t[n].text + Fill([], version, encodedConfig);
    EndsWithConcat(Fill(t[..n], version, encodedConfig), t[n].text);
  }

  lemma FillStartsWithFirst(t: seq<Segment>, version: string, encodedConfig: string)
    requires t != [] && t[0].Lit?
    ensures StartsWith(Fill(t, version, encodedConfig), t[0].text)
  {
    StartsWithConcat(t[0].text, Fill(t[1..], version, encodedConfig));
  }

  lemma EndsWithTrans(a: string, b: string, c: string)
    requires EndsWith(a, b) && EndsWith(b, c)
    ensures EndsWith(a, c)
  {
    assert a[|a| - |c|..] == b[|b| - |c|..];
  }

  lemma StartsWithTrans(a: string, b: string, c: string)
    requires StartsWith(a, b) && StartsWith(b, c)
    ensures StartsWith(a, c)
  {
    assert a[..|c|] == b[..|c|];
  }

  /**
   * The configuration appears once, as it is, between text that does not depend on
   * it: the head ends by opening the script and the tail starts by closing it.
   */
  lemma PageLayout(version: string, encodedConfig: string)
    ensures RenderHtml(version, encodedConfig) == PageHead(version) + encodedConfig + PageTail(version)
    ensures EndsWith(PageHead(version), ScriptOpen)
    ensures StartsWith(PageTail(version), ScriptClose)
  {
    PageTemplateHoles();
    ConfigSlotText();
    var t := PageTemplate;
    FillAroundConfig(t, ConfigSlot, version, encodedConfig);
    assert t[..ConfigSlot][ConfigSlot - 1] == t[ConfigSlot - 1];
    FillEndsWithLast(t[..ConfigSlot], version, []);
    EndsWithTrans(PageHead(version), t[ConfigSlot - 1].text, ScriptOpen);
    assert t[ConfigSlot + 1..][0] == t[ConfigSlot + 1];
    FillStartsWithFirst(t[ConfigSlot + 1..], version, []);
    StartsWithTrans(PageTail(version), t[ConfigSlot + 1].text, ScriptClose);
  }

  predicate ContainsAt(s: string, q: string, k: int) {
    0 <= k && k + |q| <= |s| && s[k..k + |q|] == q
  }

  predicate Contains(s: string, q: string) {
    exists k :: 0 <= k <= |s| && ContainsAt(s, q, k)
  }

  lemma ContainsMiddle(x: string, q: string, y: string)
    ensures Contains(x + q + y, q)
  {
    assert (x + q + y)[|x|..|x| + |q|] == q;
    assert ContainsAt(x + q + y, q, |x|);
  }

  /** The quoted URL of an asset: `"` + CdnBase + version + path + `"`. */
  function QuotedAssetUrl(version: string, path: string): string {
    "\"" + AssetUrl(version, path) + "\""
  }

  /** The quoted URL is the template's text before `${version}`, the version, and the text after it. */
  lemma QuotedAssetUrlParts(version: string, path: string)
    ensures QuotedAssetUrl(version, path) == UrlStart + version + UrlEnd(path)
  {
  }

  lemma FillThree(x: Segment, y: Segment, z: Segment, version: string, encodedConfig: string)
    ensures Fill([x, y, z], version, encodedConfig)
         == SegmentText(x, version, encodedConfig) + SegmentText(y, version, encodedConfig) + SegmentText(z, version, encodedConfig)
  {
    var e := encodedConfig;
    assert [z][1..] == [];
    assert Fill([z], version, e) == SegmentText(z, version, e);
    assert [y, z][1..] == [z];
    assert Fill([y, z], version, e) == SegmentText(y, version, e) + SegmentText(z, version, e);
    assert [x, y, z][1..] == [y, z];
  }

  lemma UrlBetween(pre: string, a: string, version: string, b: string, post: string, path: string)
    requires EndsWith(a, UrlStart) && StartsWith(b, UrlEnd(path))
    ensures Contains(pre + (a + version + b) + post, QuotedAssetUrl(version, path))
  {
    var a', b' := a[..|a| - |UrlStart|], b[|UrlEnd(path)|..];
    assert a == a' + UrlStart;
    assert b == UrlEnd(path) + b';
    var q := QuotedAssetUrl(version, path);
    QuotedAssetUrlParts(version, path);
    assert pre + (a + version + b) + post == (pre + a') + q + (b' + post);
    ContainsMiddle(pre + a', q, b' + post);
  }

  /** A version substitution shaped like a CDN URL puts that URL, quoted, into the rendered text. */
  lemma AssetUrlFilled(t: seq<Segment>, i: int, path: string, version: string, encodedConfig: string)
    requires AssetUrlAt(t, i, path)
    ensures Contains(Fill(t, version, encodedConfig), QuotedAssetUrl(version, path))
  {
    var e := encodedConfig;
    var three := [t[i - 1], t[i], t[i + 1]];
    assert t == t[..i - 1] + (three + t[i + 2..]);
    FillConcat(t[..i - 1], three + t[i + 2..], version, e);
    FillConcat(three, t[i + 2..], version, e);
    FillThree(t[i - 1], t[i], t[i + 1], version, e);
    var pre, post := Fill(t[..i - 1], version, e), Fill(t[i + 2..], version, e);
    assert Fill(t, version, e) == pre + (t[i - 1].text + version + t[i + 1].text) + post;
    UrlBetween(pre, t[i - 1].text, version, t[i + 1].text, post, path);
  }

  /** Each of the four asset links of the page is the CDN base, the version and a fixed path, quoted. */
  lemma PageAssetUrls(version: string, encodedConfig: string)
    ensures Contains(RenderHtml(version, encodedConfig), QuotedAssetUrl(version, FaviconPath))
    ensures Contains(RenderHtml(version, encodedConfig), QuotedAssetUrl(version, ManifestPath))
    ensures Contains(RenderHtml(version, encodedConfig), QuotedAssetUrl(version, MainScriptPath))
  {
    UrlAt1();
    UrlAt5();
    UrlAt9();
    AssetUrlFilled(PageTemplate, 1, FaviconPath, version, encodedConfig);
    AssetUrlFilled(PageTemplate, 5, ManifestPath, version, encodedConfig);
    AssetUrlFilled(PageTemplate, 9, MainScriptPath, version, encodedConfig);
  }

  // ---------------------------------------------------------------------------
  // The plugin

  /** How a template literal prints a substitution that is a string or `undefined`. */
  function TemplateString(v: Option<string>): string {
    if v.Some? then v.value else "undefined"
  }

  /** `renderLandingPage()` with the settings fixed when the plugin was made and the host's graph reference. */
  function RenderLandingPage(s: Settings, graphRef: Option<string>): string {
    RenderHtml(TemplateString(s.version), EncodeConfig(AssembleConfig(s, graphRef)))
  }

  /** The page that `ApolloServerPluginLandingPageDefault(options)` renders for a host with `graphRef`. */
  function LandingPageHtml(options: Option<Options>, graphRef: Option<string>): string {
    RenderLandingPage(Resolve(options), graphRef)
  }

  /** Where the page's script finds its configuration literal. */
  function PayloadStart(options: Option<Options>): nat {
    |PageHead(TemplateString(Resolve(options).version))|
  }

  /**
   * The script parser's view: the value of the string literal that starts at `k`,
   * when `;</script>` follows it.
   */
  function ReadLiteralAt(doc: string, k: nat): Option<string> {
    if k > |doc| then None
    else match ParseString(doc[k..])
      case None => None
      case Some((s, n)) => if StartsWith(doc[k + n..], ScriptClose) then Some(s) else None
  }

  /** The browser's view: that literal's value, decoded by the page's script. */
  function ReadEmbeddedConfig(doc: string, k: nat): Option<Config> {
    match ReadLiteralAt(doc, k)
    case None => None
    case Some(s) => DecodePayload(s)
  }

  /** A page whose literal encodes the JSON text of `c` gives `c` back to its script. */
  lemma RenderedRoundTrip(version: string, json: string, c: Config)
    requires ParseConfig(json) == Some(c)
    ensures ReadEmbeddedConfig(RenderHtml(version, EncodeText(json)), |PageHead(version)|) == Some(c)
  {
    PageLayout(version, EncodeText(json));
    ReadBetween(PageHead(version), json, PageTail(version), c);
  }

  lemma ReadBetween(head: string, json: string, tail: string, c: Config)
    requires ParseConfig(json) == Some(c) && StartsWith(tail, ScriptClose)
    ensures ReadEmbeddedConfig(head + EncodeText(json) + tail, |head|) == Some(c)
  {
    ReadLiteralBetween(head, json, tail);
    EncodeTextRoundTrip(json, tail);
  }

  lemma ReadLiteralBetween(head: string, json: string, tail: string)
    requires StartsWith(tail, ScriptClose)
    ensures ReadLiteralAt(head + EncodeText(json) + tail, |head|) == Some(Uri.PercentEncode(json))
  {
    var e := EncodeText(json);
    var doc, k := head + e + tail, |head|;
    assert doc[k..] == e + tail;
    EncodeTextRoundTrip(json, tail);
    assert doc[k + |e|..] == tail;
  }

  /**
   * The page's script recovers exactly the configuration the plugin assembled
   * from its options and the host's graph reference.
   */
  lemma PageRoundTrip(options: Option<Options>, graphRef: Option<string>)
    ensures ReadEmbeddedConfig(LandingPageHtml(options, graphRef), PayloadStart(options))
         == Some(AssembleConfig(Resolve(options), graphRef))
  {
    var c := AssembleConfig(Resolve(options), graphRef);
    ConfigJsonRoundTrip(c);
    RenderedRoundTrip(TemplateString(Resolve(options).version), JsonOfConfig(c), c);
  }

  /** The encoded literal sits in the page as it is, between the head and the tail. */
  lemma RenderedPayloadIsInert(version: string, json: string)
    ensures var doc, k, e := RenderHtml(version, EncodeText(json)), |PageHead(version)|, EncodeText(json);
      && doc == PageHead(version) + e + PageTail(version)
      && |e| >= 2 && doc[k] == '"' && doc[k + |e| - 1] == '"'
      && (forall i :: k < i < k + |e| - 1 ==> !Uri.IsSignificant(doc[i]))
  {
    var e := EncodeText(json);
    PageLayout(version, e);
    EncodedTextIsInert(json);
    InertBetween(PageHead(version), e, PageTail(version));
  }

  lemma InertBetween(head: string, e: string, tail: string)
    requires |e| >= 2 && e[0] == '"' && e[|e| - 1] == '"'
    requires forall i :: 0 < i < |e| - 1 ==> !Uri.IsSignificant(e[i])
    ensures var doc, k := head + e + tail, |head|;
      && doc[k] == '"' && doc[k + |e| - 1] == '"'
      && (forall i :: k < i < k + |e| - 1 ==> !Uri.IsSignificant(doc[i]))
  {
    var doc, k := head + e + tail, |head|;
    forall i | k <= i < k + |e| ensures doc[i] == e[i - k] {
    }
  }

  /**
   * Whatever the graph reference and the Studio environment hold, the text the
   * configuration adds to the page is a double-quoted literal whose inside has no
   * `<`, `>`, `&`, double quote or backslash: no tag, `</script` included, can start
   * inside it, and the literal ends where the template resumes.
   */
  lemma PayloadCannotBreakOut(options: Option<Options>, graphRef: Option<string>)
    ensures var doc, k := LandingPageHtml(options, graphRef), PayloadStart(options);
      var v, e := TemplateString(Resolve(options).version), EncodeConfig(AssembleConfig(Resolve(options), graphRef));
      && doc == PageHead(v) + e + PageTail(v)
      && |e| >= 2 && doc[k] == '"' && doc[k + |e| - 1] == '"'
      && (forall i :: k < i < k + |e| - 1 ==> !Uri.IsSignificant(doc[i]))
      && (forall i :: 0 <= i < |doc| && StartsWith(doc[i..], "</script") ==> i < k || k + |e| <= i)
  {
    var c := AssembleConfig(Resolve(options), graphRef);
    var v, e := TemplateString(Resolve(options).version), EncodeConfig(c);
    RenderedPayloadIsInert(v, JsonOfConfig(c));
    NoTagInside(LandingPageHtml(options, graphRef), PayloadStart(options), |e|);
  }

  /** Inside a stretch with no `<`, between two quotes, no `</script` can start. */
  lemma NoTagInside(doc: string, k: nat, n: nat)
    requires 2 <= n && k + n <= |doc| && doc[k] == '"' && doc[k + n - 1] == '"'
    requires forall i :: k < i < k + n - 1 ==> !Uri.IsSignificant(doc[i])
    ensures forall i :: 0 <= i < |doc| && StartsWith(doc[i..], "</script") ==> i < k || k + n <= i
  {
    forall i | 0 <= i < |doc| && StartsWith(doc[i..], "</script") ensures i < k || k + n <= i {
      assert doc[i] == doc[i..][0] == '<';
    }
  }

  /**
   * The configuration the page's script reads carries the host's graph reference,
   * and `isProd` and the Studio environment exactly when the options have them.
   */
  lemma PageConfigFollowsOptions(options: Option<Options>, graphRef: Option<string>)
    ensures var r := ReadEmbeddedConfig(LandingPageHtml(options, graphRef), PayloadStart(options));
      && r.Some?
      && r.value.graphRef == graphRef
      && (r.value.isProd.Some? <==> options.Some? && options.value.isProd.Has?)
      && (r.value.isProd.Some? ==> r.value.isProd.value == options.value.isProd.value)
      && (r.value.apolloStudioEnv.Some? <==> options.Some? && options.value.studioEnv.Has?)
      && (r.value.apolloStudioEnv.Some? ==> r.value.apolloStudioEnv.value == options.value.studioEnv.value)
  {
    PageRoundTrip(options, graphRef);
  }

  /** With no options, or options without a `version` property, the assets come from `_latest`. */
  lemma DefaultVersionUrls(options: Option<Options>, graphRef: Option<string>)
    requires options.None? || options.value.version.Missing?
    ensures var doc := LandingPageHtml(options, graphRef);
      && Contains(doc, QuotedAssetUrl(LatestVersion, FaviconPath))
      && Contains(doc, QuotedAssetUrl(LatestVersion, ManifestPath))
      && Contains(doc, QuotedAssetUrl(LatestVersion, MainScriptPath))
  {
    PageAssetUrls(LatestVersion, EncodeConfig(AssembleConfig(Resolve(options), graphRef)));
  }

  /** An explicit `version: undefined` spreads over the default, and the asset URLs read `undefined`. */
  lemma ExplicitUndefinedVersion(o: Options, graphRef: Option<string>)
    requires o.version.Undefined?
    ensures var doc := LandingPageHtml(Some(o), graphRef);
      && Contains(doc, QuotedAssetUrl("undefined", FaviconPath))
      && Contains(doc, QuotedAssetUrl("undefined", ManifestPath))
      && Contains(doc, QuotedAssetUrl("undefined", MainScriptPath))
  {
    PageAssetUrls("undefined", EncodeConfig(AssembleConfig(Resolve(Some(o)), graphRef)));
  }
}
