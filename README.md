# Apollo Server default landing page: the embedded configuration

This project models the default landing page plugin of Apollo Server
(`ApolloServerPluginLandingPageDefault`) and proves properties of that model. The plugin
does three things:

- It defaults its options: `version` becomes `_latest` unless the caller gives one.
- It assembles a three-field configuration record `{ graphRef, isProd, apolloStudioEnv }`.
- It embeds the record in a fixed HTML page as
  `JSON.stringify(encodeURIComponent(JSON.stringify(config)))`, inside
  `<script>window.landingPage = …;</script>`. It also builds four CDN asset URLs from the
  version.

The source is pure: an object spread, an object literal, nested calls and a template
literal. The model is therefore made of datatypes, recursive functions and lemmas.

The model has five modules:

- `Wrappers`: the `Option` type.
- `Utf8`: UTF-8 encoding and decoding of one Unicode scalar value (RFC 3629).
- `Uri`: `encodeURIComponent` and `decodeURIComponent`, following the Encode and Decode
  algorithms of ECMA-262 (section 19.2.6 of the 2022 edition). The characters left
  unescaped are `A–Z a–z 0–9 - _ . ! ~ * ' ( )`. Every other character is written as the
  `%XX` escapes of its UTF-8 bytes, with uppercase hex digits as in section 2.1 of RFC 3986.
  `None` from the decoder stands for a thrown `URIError`.
- `Json`: the string quoting of `JSON.stringify`, following QuoteJSONString of ECMA-262
  (section 25.5.2.3 of the 2022 edition) and section 7 of RFC 8259. It also holds the
  writer and the parser of a flat object of string and boolean members, as `JSON.stringify`
  writes one and `JSON.parse` reads one.
- `LandingPage`:
  - the options and their defaulting;
  - the configuration record and its JSON text;
  - the triple encoding and its decoder;
  - the template literal, as a sequence of fixed texts and `${version}` / `${encodedConfig}`
    substitutions;
  - the plugin as one function of the options and the host's graph reference.

The main results are:

- **Round trip.** The page's script recovers the assembled configuration. This means
  reading the string literal at the payload position, percent-decoding it and JSON-parsing
  the result. Fields that were `undefined` are still absent (`LandingPage.PageRoundTrip`).
- **No break-out.** Whatever the graph reference and the Studio environment contain, the
  payload is a double-quoted literal. Its inside has no `<`, `>`, `&`, `"` or `\`. So no
  `</script` can start inside it (`LandingPage.PayloadCannotBreakOut`).
- **Trivial outer quoting.** The outer `JSON.stringify` only adds a pair of double quotes,
  as the comment at index.ts lines 47-55 claims (`LandingPage.OuterQuotingIsTrivial`).

Strings are `seq<char>`. A Dafny `char` is a Unicode scalar value, so one `char` models one
code point of a JavaScript string.

## Model

All sources are in `packages/apollo-server-core/src/plugin/landingPage/default/`; the table
gives the full path.

| member | source | states |
|---|---|---|
| LandingPage.Resolve | packages/apollo-server-core/src/plugin/landingPage/default/index.ts:33-36 | The default `_latest` is used exactly when there are no options or they have no `version` property. A given version is used unchanged, and an explicit `version: undefined` stays `undefined`. `isProd` and the Studio environment are defined exactly when the options carry them, with the caller's values, and have no default. |
| LandingPage.Members | packages/apollo-server-core/src/plugin/landingPage/default/index.ts:42-46 | The JSON members of the record have keys in the object literal's order `graphRef`, `isProd`, `apolloStudioEnv`, strictly increasing. No other key occurs. |
| LandingPage.MembersCarryFields | packages/apollo-server-core/src/plugin/landingPage/default/index.ts:42-46 | Each of the three keys maps to its field's value, and a key is present exactly when its field is not `undefined`. |
| LandingPage.ConfigJsonRoundTrip | packages/apollo-server-core/src/plugin/landingPage/default/index.ts:42-46 | `JSON.parse` of `JSON.stringify(config)`, read as a record, is the record again, with omitted fields still absent. |
| Json.QuoteIsTrivialIff | packages/apollo-server-core/src/plugin/landingPage/default/index.ts:50-52 | `JSON.stringify` of a string is that string in plain double quotes exactly when it holds no quote, backslash or control character. |
| Json.ParseQuote | packages/apollo-server-core/src/plugin/landingPage/default/index.ts:53-55 | Parsing a quoted string stops at its closing quote, whatever follows it, and gives back the string. |
| Json.ParseObjectText | packages/apollo-server-core/src/plugin/landingPage/default/index.ts:53-55 | Parsing the text `JSON.stringify` writes for a flat object gives back its members. |
| Json.Lookup | packages/apollo-server-core/src/plugin/landingPage/default/index.ts:53-55 | The parsed object's value at a key is absent exactly when no member has the key. Otherwise some member carries that key with that value. |
| Json.LookupConcat | packages/apollo-server-core/src/plugin/landingPage/default/index.ts:53-55 | A key of a later member overrides the same key earlier in the object, as `JSON.parse` keeps the last one. |
| Utf8.DecodeScalar | packages/apollo-server-core/src/plugin/landingPage/default/index.ts:56-57 | A byte sequence the decoder accepts is exactly the UTF-8 encoding of the character it returns. Overlong forms, surrogates and values past U+10FFFF, which no character encodes to, are therefore refused. |
| Utf8.DecodeEncode | packages/apollo-server-core/src/plugin/landingPage/default/index.ts:56-57 | Decoding the UTF-8 encoding of any character gives that character. |
| Uri.EscapeByte | packages/apollo-server-core/src/plugin/landingPage/default/index.ts:56-57 | A byte's escape is `%` and two uppercase hex digits whose values are the byte's high and low four bits. |
| Uri.EscapeBytesInOrder | packages/apollo-server-core/src/plugin/landingPage/default/index.ts:56-57 | The escapes of a character's UTF-8 bytes come in order: the `k`-th three characters are the escape of the `k`-th byte. |
| Uri.ReadEscapesBytes | packages/apollo-server-core/src/plugin/landingPage/default/index.ts:52-57 | Reading back the escapes of a byte sequence, whatever follows them, gives those bytes. |
| Uri.PercentEncode | packages/apollo-server-core/src/plugin/landingPage/default/index.ts:47-50 | Every character of `encodeURIComponent`'s result is unreserved or `%`, and every `%` is followed by two uppercase hex digits. No character is `<`, `>`, `&`, `"` or `\`. |
| Uri.DecodeEncodeRoundTrip | packages/apollo-server-core/src/plugin/landingPage/default/index.ts:52-57 | `decodeURIComponent(encodeURIComponent(s))` is `s` for every string of scalar values. |
| LandingPage.OuterQuotingIsTrivial | packages/apollo-server-core/src/plugin/landingPage/default/index.ts:47-58 | The outer `JSON.stringify` of the percent-encoded text is that text between two double quotes. The text is unreserved characters and well-formed escapes. |
| LandingPage.EncodedTextIsInert | packages/apollo-server-core/src/plugin/landingPage/default/index.ts:47-58 | The encoded configuration starts and ends with `"` and between them has no `<`, `>`, `&`, `"` or `\`. |
| LandingPage.EncodeTextRoundTrip | packages/apollo-server-core/src/plugin/landingPage/default/index.ts:52-58 | The encoded literal parses up to its own closing quote, whatever follows it, to the percent-encoded text. That text decodes back to the JSON text. |
| LandingPage.EncodeConfigRoundTrip | packages/apollo-server-core/src/plugin/landingPage/default/index.ts:47-58 | Parsing the literal, percent-decoding its value and JSON-parsing the result gives back the configuration. |
| LandingPage.PageTemplateHoles | packages/apollo-server-core/src/plugin/landingPage/default/index.ts:60-94 | The template substitutes `${version}` at exactly four places and `${encodedConfig}` at exactly one. |
| LandingPage.VersionOnlyInAssetUrls | packages/apollo-server-core/src/plugin/landingPage/default/index.ts:67-91 | Each `${version}` sits between `"` + the CDN base and one of the fixed asset paths + `"`, so the version affects nothing but the asset URLs. |
| LandingPage.UrlAt1 | packages/apollo-server-core/src/plugin/landingPage/default/index.ts:67 | The first substitution is the favicon URL `https://apollo-server-landing-page.cdn.apollographql.com/${version}/assets/favicon.png`. |
| LandingPage.UrlAt3 | packages/apollo-server-core/src/plugin/landingPage/default/index.ts:79 | The second substitution is the apple-touch-icon URL, with the favicon path. |
| LandingPage.UrlAt5 | packages/apollo-server-core/src/plugin/landingPage/default/index.ts:83 | The third substitution is the manifest URL, with path `/manifest.json`. |
| LandingPage.UrlAt9 | packages/apollo-server-core/src/plugin/landingPage/default/index.ts:91 | The fourth substitution is the main script URL, with path `/static/js/main.js`. |
| LandingPage.ConfigSlotText | packages/apollo-server-core/src/plugin/landingPage/default/index.ts:90 | The configuration substitution comes right after `<script>window.landingPage = ` and right before `;</script>`. |
| LandingPage.PageLayout | packages/apollo-server-core/src/plugin/landingPage/default/index.ts:60-94 | The page is a head, the encoded configuration and a tail. The head and tail depend on the version only. The head ends by opening the script and the tail starts by closing it. |
| LandingPage.PageAssetUrls | packages/apollo-server-core/src/plugin/landingPage/default/index.ts:67-91 | The rendered page contains each quoted asset URL: the CDN base, the version and the fixed path. |
| LandingPage.PageRoundTrip | packages/apollo-server-core/src/plugin/landingPage/default/index.ts:33-95 | The page's script reads back exactly the configuration assembled from the resolved options and the host's graph reference, for all options and graph references. |
| LandingPage.RenderedPayloadIsInert | packages/apollo-server-core/src/plugin/landingPage/default/index.ts:56-90 | In the rendered page the payload stands as it is between head and tail, quoted, with no `<`, `>`, `&`, `"` or `\` inside. |
| LandingPage.PayloadCannotBreakOut | packages/apollo-server-core/src/plugin/landingPage/default/index.ts:42-95 | For all options and graph references the payload is an inert quoted literal, and no `</script` starts inside it. |
| LandingPage.PageConfigFollowsOptions | packages/apollo-server-core/src/plugin/landingPage/default/index.ts:33-58 | The configuration the script reads has the host's graph reference. It has `isProd` and the Studio environment exactly when the options carry them, with their values. |
| LandingPage.DefaultVersionUrls | packages/apollo-server-core/src/plugin/landingPage/default/index.ts:33-36 | Without options, or without a `version` property, all asset URLs use `_latest`. |
| LandingPage.ExplicitUndefinedVersion | packages/apollo-server-core/src/plugin/landingPage/default/index.ts:33-94 | An explicit `version: undefined` overrides the default. The template prints it as the word `undefined`, so the favicon, manifest and main script URLs all read `undefined` in place of the version. |

## Left out

- The plugin lifecycle types `ApolloServerPlugin` and `GraphQLServerListener` (index.ts lines 1-4 and 37-40). They come from `apollo-server-plugin-base`, which is not part of this model. The chain of closures is one function, `LandingPageHtml(options, graphRef)`.
- Serving `{ html }` over HTTP, the CDN assets, the font links and the browser-side code. The only part of the consumer modelled is its decoder, `ReadEmbeddedConfig`. It reads the string literal the way the script parser does, decodes it with `decodeURIComponent` and reads the object with `JSON.parse`.
- Lone UTF-16 surrogates. A Dafny `char` cannot hold one, so the `URIError` that `encodeURIComponent` throws on them is not modelled. Neither is the `\uXXXX` escaping `JSON.stringify` gives them.
- General JSON: whitespace, nesting, numbers, `null`, arrays, cycles and the circular-structure error. The parser reads only the flat, whitespace-free objects of strings and booleans that `JSON.stringify` writes for this record. It refuses `\u` escapes of surrogate halves, so surrogate pairs written as two escapes are not read.
- `null` for `graphRef` or the Studio environment. The Studio environment comes from the options, whose type (index.ts lines 6-25) admits only a string or `undefined`. `graphRef` comes from the host's `apollo` object (index.ts lines 38-39). Its type belongs to `apollo-server-plugin-base`, which is not part of this model, and it is modelled as a string or `undefined`.
- The `NODE_ENV`-based default for `isProd`. It is applied where the plugin is installed implicitly, not in this file. Here an absent `isProd` is simply left out of the JSON text.
- The script parser that reads the page's string literal is modelled by the JSON string-literal parser. The two agree on the text the encoder produces, which is only unreserved characters and `%` between two quotes.
- The exact whitespace of the HTML skeleton. It is kept as constant text, copied from the template and using the source's line breaks, and nothing is proved about it beyond where the substitutions sit.
- Determinism: every operation is a function, so equal inputs give equal pages without a separate statement.
- One behaviour follows the code rather than a reading of the option's description at index.ts lines 7-13, which says the latest version is used by default. By that reading `{ version: undefined, isProd: false }` would put `_latest` in the asset URLs. The code spreads the options over `{ version: '_latest' }`, and a property that is present but `undefined` overrides the default. So the page prints `undefined` in those URLs. The model follows the code (`LandingPage.ExplicitUndefinedVersion`). The default applies only when the property is absent (`LandingPage.DefaultVersionUrls`).
