/**
  Destinations, fragments and certificates: parsing them from JSON objects and serialising them
  back, with unknown text fields carried along.
*/
module Entities {
  import opened Options

  // ---------- JSON objects ----------

  datatype Json =
    | Null
    | Text(text: string)
    | Other(truthy: bool)

  type Object = map<string, Json>

  predicate Truthy(v: Json) {
    match v
    case Null => false
    case Text(t) => t != ""
    case Other(b) => b
  }

  function Get(obj: Object, key: string): Json {
    if key in obj then obj[key] else Null
  }

  /** `a or b`: the last operand where none is truthy. */
  function Or(a: Json, b: Json): Json {
    if Truthy(a) then a else b
  }

  /** What `strip` takes off: the white space of Unicode, and the four ASCII separators. */
  predicate Space(c: char) {
    || '\t' <= c <= '\r' || '\U{1C}' <= c <= ' ' || c == '\U{85}' || c == '\U{A0}' || c == '\U{1680}'
    || '\U{2000}' <= c <= '\U{200A}' || c == '\U{2028}' || c == '\U{2029}' || c == '\U{202F}'
    || c == '\U{205F}' || c == '\U{3000}'
  }

  predicate Blank(s: string) {
    forall i :: 0 <= i < |s| ==> Space(s[i])
  }

  // ---------- Fields, told from the object ----------

  /** The key is missing, or holds what Python takes for false. */
  ghost predicate Lacking(obj: Object, key: string) {
    key !in obj || obj[key] in {Null, Text(""), Other(false)}
  }

  /** What is found under the first key or, where that holds nothing, under the second. */
  ghost predicate FieldIs(obj: Object, first: string, second: string, v: Json) {
    v == if !Lacking(obj, first) then obj[first] else if second in obj then obj[second] else Null
  }

  /** Some character is not white space. */
  ghost predicate SaysSomething(s: string) {
    exists i :: 0 <= i < |s| && !WhiteSpace(s[i])
  }

  ghost predicate WhiteSpace(c: char) {
    || c in "\t\n\U{0B}\U{0C}\r \U{1C}\U{1D}\U{1E}\U{1F}\U{85}\U{A0}\U{1680}"
    || c in "\U{2000}\U{2001}\U{2002}\U{2003}\U{2004}\U{2005}\U{2006}\U{2007}\U{2008}\U{2009}\U{200A}"
    || c in "\U{2028}\U{2029}\U{202F}\U{205F}\U{3000}"
  }

  lemma SpaceTold(c: char)
    ensures Space(c) <==> WhiteSpace(c)
  {
    LowSpace(c);
    HighSpace(c);
  }

  lemma LowSpace(c: char)
    ensures ('\t' <= c <= '\r' || '\U{1C}' <= c <= ' ' || c == '\U{85}' || c == '\U{A0}' || c == '\U{1680}')
            <==> c in "\t\n\U{0B}\U{0C}\r \U{1C}\U{1D}\U{1E}\U{1F}\U{85}\U{A0}\U{1680}"
  {
  }

  lemma HighSpace(c: char)
    ensures ('\U{2000}' <= c <= '\U{200A}' || c == '\U{2028}' || c == '\U{2029}' || c == '\U{202F}' || c == '\U{205F}' || c == '\U{3000}')
            <==> || c in "\U{2000}\U{2001}\U{2002}\U{2003}\U{2004}\U{2005}\U{2006}\U{2007}\U{2008}\U{2009}\U{200A}"
                 || c in "\U{2028}\U{2029}\U{202F}\U{205F}\U{3000}"
  {
  }

  lemma BlankTold(s: string)
    ensures Blank(s) <==> !SaysSomething(s)
  {
    forall i | 0 <= i < |s|
      ensures Space(s[i]) <==> WhiteSpace(s[i])
    {
      SpaceTold(s[i]);
    }
  }

  /** A parsed entity, or one of the two ways in which parsing raises. */
  datatype Parsed<T> = Ok(value: T) | MissingFields | NotText

  // ---------- Unknown fields ----------

  /** The text fields under other than the known keys. */
  function Unknown(obj: Object, known: set<string>): map<string, string> {
    map k | k in obj && k !in known && obj[k].Text? :: obj[k].text
  }

  /** Properties added to a payload without overriding it. */
  function Merged(payload: Object, properties: map<string, string>): Object {
    map k | k in payload.Keys + properties.Keys :: if k in payload then payload[k] else Text(properties[k])
  }

  /** In whatever order the fields come. */
  method ExtractUnknown(obj: Object, known: set<string>) returns (properties: map<string, string>)
    ensures properties == Unknown(obj, known)
  {
    properties := map[];
    var pending := obj.Keys;
    while pending != {}
      invariant pending <= obj.Keys
      invariant properties == map k | k in obj && k !in pending && k !in known && obj[k].Text? :: obj[k].text
      decreases |pending|
    {
      var k :| k in pending;
      pending := pending - {k};
      if k !in known && obj[k].Text? {
        properties := properties[k := obj[k].text];
      }
    }
  }

  /** The properties that are not pending. */
  function Without(properties: map<string, string>, pending: set<string>): map<string, string> {
    properties - pending
  }

  lemma MergeOne(payload: Object, properties: map<string, string>, pending: set<string>, k: string)
    requires k in pending && pending <= properties.Keys
    ensures var merged := Merged(payload, Without(properties, pending));
            Merged(payload, Without(properties, pending - {k}))
            == if k in merged then merged else merged[k := Text(properties[k])]
  {
  }

  method MergeProperties(payload: Object, properties: map<string, string>) returns (merged: Object)
    ensures merged == Merged(payload, properties)
  {
    merged := payload;
    var pending := properties.Keys;
    assert Merged(payload, Without(properties, pending)) == payload;
    while pending != {}
      invariant pending <= properties.Keys
      invariant merged == Merged(payload, Without(properties, pending))
      decreases pending
    {
      var k :| k in pending;
      MergeOne(payload, properties, pending, k);
      pending := pending - {k};
      if k !in merged {
        merged := merged[k := Text(properties[k])];
      }
    }
    assert Without(properties, {}) == properties;
  }

  /** What merging and extracting do to each other. */
  lemma ExtractMerged(payload: Object, properties: map<string, string>, known: set<string>)
    requires payload.Keys <= known
    ensures Unknown(Merged(payload, properties), known) == map k | k in properties && k !in known :: properties[k]
    ensures Unknown(Merged(payload, properties), known) == properties <==> properties.Keys !! known
  {
  }

  // ---------- Choices ----------

  /** An enumeration member, or a text that is none. */
  datatype Choice = Known(text: string) | Custom(text: string)

  const DESTINATION_TYPES := {"HTTP", "RFC", "MAIL", "LDAP", "TCP"}
  const PROXY_TYPES := {"Internet", "OnPremise", "PrivateLink"}
  const AUTHENTICATIONS := {
    "NoAuthentication", "BasicAuthentication", "ClientCertificateAuthentication", "PrincipalPropagation",
    "OAuth2ClientCredentials", "OAuth2JWTBearer", "OAuth2Password", "OAuth2RefreshToken",
    "OAuth2SAMLBearerAssertion", "OAuth2UserTokenExchange", "OAuth2TokenExchange", "OAuth2AuthorizationCode",
    "OAuth2TechnicalUserPropagation", "SAMLAssertion"}

  function Choose(members: set<string>, text: string): Choice {
    if text in members then Known(text) else Custom(text)
  }

  function ParseChoice(members: set<string>, v: Json): Option<Choice> {
    if v.Text? then Some(Choose(members, v.text)) else None
  }

  function ChoiceJson(c: Option<Choice>): Json {
    if c.Some? then Text(c.value.text) else Null
  }

  // ---------- Payloads ----------

  function Put(obj: Object, key: string, v: Json): Object {
    if v == Null then obj else obj[key := v]
  }

  ghost predicate NoNulls(obj: Object) {
    forall k :: k in obj ==> obj[k] != Null
  }

  lemma SameObject(a: Object, b: Object)
    requires NoNulls(a) && NoNulls(b)
    requires forall k :: Get(a, k) == Get(b, k)
    ensures a == b
  {
    forall k
      ensures k in a <==> k in b
      ensures k in a ==> a[k] == b[k]
    {
      assert Get(a, k) == Get(b, k);
    }
  }

  // ---------- Destinations ----------

  /** `runtime` stands for the authentication tokens and certificates of the consumption API, which are never serialised. */
  datatype Destination = Destination(
    name: string, kind: Choice, url: Json, proxyType: Option<Choice>, authentication: Option<Choice>,
    description: Json, properties: map<string, string>, runtime: seq<Json>)

  const UPPER := {"Name", "Type", "URL", "ProxyType", "Authentication", "Description"}
  const LOWER := {"name", "type", "url", "proxyType", "authentication", "description"}
  const RUNTIME := {"authTokens", "auth_tokens", "certificates"}

  /** The core fields as found, the lower-case key first. */
  datatype CoreFields = CoreFields(name: Json, kind: Json, url: Json, proxyType: Json, authentication: Json, description: Json)

  function ExtractCore(obj: Object): CoreFields {
    CoreFields(
      Or(Get(obj, "name"), Get(obj, "Name")),
      Or(Get(obj, "type"), Get(obj, "Type")),
      Or(Get(obj, "url"), Get(obj, "URL")),
      Or(Get(obj, "proxyType"), Get(obj, "ProxyType")),
      Or(Get(obj, "authentication"), Get(obj, "Authentication")),
      Or(Get(obj, "description"), Get(obj, "Description")))
  }

  function Build(f: CoreFields, properties: map<string, string>): Parsed<Destination> {
    var name := Or(f.name, Text(""));
    var kind := ParseChoice(DESTINATION_TYPES, f.kind);
    if kind.None? then MissingFields
    else if !name.Text? then NotText
    else if Blank(name.text) || Blank(kind.value.text) then MissingFields
    else
      Ok(Destination(name.text, kind.value, f.url, ParseChoice(PROXY_TYPES, f.proxyType),
                     ParseChoice(AUTHENTICATIONS, f.authentication), f.description, properties, []))
  }

  /** Without runtime data. */
  function FromDict(obj: Object): Parsed<Destination> {
    Build(ExtractCore(obj), Unknown(obj, LOWER + UPPER + RUNTIME))
  }

  function Core(d: Destination): Object {
    var required := map["Name" := Text(d.name), "Type" := Text(d.kind.text)];
    var withProxy := Put(Put(required, "URL", d.url), "ProxyType", ChoiceJson(d.proxyType));
    Put(Put(withProxy, "Authentication", ChoiceJson(d.authentication)), "Description", d.description)
  }

  function ToDict(d: Destination): Object {
    Merged(Core(d), d.properties)
  }

  method DestinationToDict(d: Destination) returns (payload: Object)
    ensures payload == ToDict(d)
  {
    payload := map["Name" := Text(d.name), "Type" := Text(d.kind.text)];
    if d.url != Null {
      payload := payload["URL" := d.url];
    }
    if d.proxyType.Some? {
      payload := payload["ProxyType" := Text(d.proxyType.value.text)];
    }
    if d.authentication.Some? {
      payload := payload["Authentication" := Text(d.authentication.value.text)];
    }
    if d.description != Null {
      payload := payload["Description" := d.description];
    }
    payload := MergeProperties(payload, d.properties);
  }

  function Normalised(d: Destination): Destination {
    d.(kind := Choose(DESTINATION_TYPES, d.kind.text),
       proxyType := ParseChoice(PROXY_TYPES, ChoiceJson(d.proxyType)),
       authentication := ParseChoice(AUTHENTICATIONS, ChoiceJson(d.authentication)),
       runtime := [])
  }

  lemma CoreGet(d: Destination)
    ensures NoNulls(Core(d)) && Core(d).Keys <= UPPER
    ensures Get(Core(d), "Name") == Text(d.name) && Get(Core(d), "Type") == Text(d.kind.text)
    ensures Get(Core(d), "URL") == d.url && Get(Core(d), "Description") == d.description
    ensures Get(Core(d), "ProxyType") == ChoiceJson(d.proxyType)
    ensures Get(Core(d), "Authentication") == ChoiceJson(d.authentication)
  {
  }

  /** Does the destination have what parsing requires? */
  predicate HasRequired(d: Destination) {
    !Blank(d.name) && !Blank(d.kind.text)
  }

  lemma ToDictGet(d: Destination, key: string)
    ensures NoNulls(ToDict(d))
    ensures Get(ToDict(d), key)
            == if Get(Core(d), key) != Null then Get(Core(d), key)
               else if key in d.properties then Text(d.properties[key]) else Null
  {
  }

  /** A key outside the upper-case ones comes from the properties alone. */
  lemma OtherKey(d: Destination, key: string)
    requires key !in UPPER
    ensures Get(ToDict(d), key) == if key in d.properties then Text(d.properties[key]) else Null
  {
  }

  lemma KeysApart()
    ensures UPPER !! LOWER && UPPER !! RUNTIME
  {
  }

  /** With no lower-case key among the properties, a payload parses to this. */
  function Reparsed(d: Destination): Destination {
    var obj := ToDict(d);
    Destination(
      d.name, Choose(DESTINATION_TYPES, d.kind.text), Get(obj, "URL"),
      ParseChoice(PROXY_TYPES, Get(obj, "ProxyType")), ParseChoice(AUTHENTICATIONS, Get(obj, "Authentication")),
      Get(obj, "Description"), Unknown(obj, LOWER + UPPER + RUNTIME), [])
  }

  lemma LowerAbsent(d: Destination, key: string)
    requires d.properties.Keys !! LOWER && key in LOWER
    ensures Get(ToDict(d), key) == Null
  {
    KeysApart();
    OtherKey(d, key);
  }

  lemma ParsesTo(d: Destination)
    requires d.properties.Keys !! LOWER
    ensures FromDict(ToDict(d)) == if HasRequired(d) then Ok(Reparsed(d)) else MissingFields
  {
    CoreGet(d);
    ToDictGet(d, "Name");
    ToDictGet(d, "Type");
    LowerAbsent(d, "name");
    LowerAbsent(d, "type");
    LowerAbsent(d, "url");
    LowerAbsent(d, "proxyType");
    LowerAbsent(d, "authentication");
    LowerAbsent(d, "description");
  }

  ghost predicate SameUpper(a: Object, b: Object) {
    && Get(a, "Name") == Get(b, "Name") && Get(a, "Type") == Get(b, "Type")
    && Get(a, "URL") == Get(b, "URL") && Get(a, "Description") == Get(b, "Description")
    && Get(a, "ProxyType") == Get(b, "ProxyType") && Get(a, "Authentication") == Get(b, "Authentication")
  }

  lemma SameUpperAt(a: Object, b: Object, key: string)
    requires SameUpper(a, b) && key in UPPER
    ensures Get(a, key) == Get(b, key)
  {
  }

  lemma CoreReparsed(d: Destination)
    ensures SameUpper(Core(Reparsed(d)), ToDict(d))
  {
    CoreGet(Reparsed(d));
    TextFields(d);
    RequiredFields(d);
  }

  lemma RequiredFields(d: Destination)
    ensures Get(ToDict(d), "Name") == Text(d.name) && Get(ToDict(d), "Type") == Text(d.kind.text)
  {
  }

  lemma CoreReparsedAt(d: Destination, key: string)
    requires key in UPPER
    ensures Get(Core(Reparsed(d)), key) == Get(ToDict(d), key)
  {
    CoreReparsed(d);
    SameUpperAt(Core(Reparsed(d)), ToDict(d), key);
  }

  /** Each field of a payload is serialised as it was. */
  lemma FieldKept(d: Destination, key: string)
    requires d.properties.Keys !! LOWER && d.properties.Keys !! RUNTIME
    ensures Get(ToDict(Reparsed(d)), key) == Get(ToDict(d), key)
  {
    UnknownGet(d, key);
    if key in UPPER {
      CoreReparsedAt(d, key);
      ToDictGet(Reparsed(d), key);
    } else {
      OtherKey(d, key);
      OtherKey(Reparsed(d), key);
    }
  }

  lemma UnknownGet(d: Destination, key: string)
    ensures key in Reparsed(d).properties <==> key in d.properties && key !in LOWER + UPPER + RUNTIME
    ensures key in Reparsed(d).properties ==> Reparsed(d).properties[key] == d.properties[key]
  {
  }

  /** The choices of a payload are texts, or absent. */
  lemma TextFields(d: Destination)
    ensures var proxy, auth := Get(ToDict(d), "ProxyType"), Get(ToDict(d), "Authentication");
            && ChoiceJson(ParseChoice(PROXY_TYPES, proxy)) == proxy
            && ChoiceJson(ParseChoice(AUTHENTICATIONS, auth)) == auth
  {
  }

  /** A key parsing knows is never left among the properties. */
  lemma NoKnownProperties(obj: Object)
    requires FromDict(obj).Ok?
    ensures FromDict(obj).value.properties.Keys !! LOWER + UPPER + RUNTIME
  {
  }

  /** A choice is a member where the text names one, else the text; other values are none. */
  ghost predicate ChoiceOf(members: set<string>, v: Json, c: Option<Choice>) {
    c == match v
         case Text(t) => Some(if t in members then Known(t) else Custom(t))
         case _ => None
  }

  /**
    What parses: an object whose name and type, under the lower-case key or else the upper-case
    one, are texts that are not blank. A name that is something else raises another exception,
    where the type is a text.
  */
  lemma ParsesExactly(obj: Object, name: Json, kind: Json)
    requires FieldIs(obj, "name", "Name", name) && FieldIs(obj, "type", "Type", kind)
    ensures FromDict(obj).Ok? <==> name.Text? && SaysSomething(name.text) && kind.Text? && SaysSomething(kind.text)
    ensures FromDict(obj) == NotText <==> kind.Text? && name == Other(true)
    ensures FromDict(obj).Ok? ==> FromDict(obj).value.name == name.text
    ensures FromDict(obj).Ok? ==> ChoiceOf({"HTTP", "RFC", "MAIL", "LDAP", "TCP"}, kind, Some(FromDict(obj).value.kind))
  {
    if name.Text? {
      BlankTold(name.text);
    }
    if kind.Text? {
      BlankTold(kind.text);
    }
    BlankTold("");
  }

  /** And the optional fields are read the same way. */
  lemma OptionalFieldsRead(obj: Object, url: Json, proxyType: Json, authentication: Json, description: Json)
    requires FromDict(obj).Ok?
    requires FieldIs(obj, "url", "URL", url) && FieldIs(obj, "proxyType", "ProxyType", proxyType)
    requires FieldIs(obj, "authentication", "Authentication", authentication) && FieldIs(obj, "description", "Description", description)
    ensures var d := FromDict(obj).value;
            && d.url == url && d.description == description
            && ChoiceOf({"Internet", "OnPremise", "PrivateLink"}, proxyType, d.proxyType)
            && ChoiceOf({
                 "NoAuthentication", "BasicAuthentication", "ClientCertificateAuthentication", "PrincipalPropagation",
                 "OAuth2ClientCredentials", "OAuth2JWTBearer", "OAuth2Password", "OAuth2RefreshToken",
                 "OAuth2SAMLBearerAssertion", "OAuth2UserTokenExchange", "OAuth2TokenExchange", "OAuth2AuthorizationCode",
                 "OAuth2TechnicalUserPropagation", "SAMLAssertion"}, authentication, d.authentication)
  {
  }

  /** The properties are exactly the text fields under other than these keys. */
  lemma PropertiesRead(obj: Object, key: string)
    requires FromDict(obj).Ok?
    ensures var known := {"name", "Name", "type", "Type", "url", "URL", "proxyType", "ProxyType", "authentication", "Authentication",
                      "description", "Description", "authTokens", "auth_tokens", "certificates"};
            var properties := FromDict(obj).value.properties;
            && (key in properties <==> key in obj && obj[key].Text? && key !in known)
            && (key in properties ==> obj[key] == Text(properties[key]))
  {
    KnownKeys(key);
  }

  lemma KnownKeys(key: string)
    ensures key in LOWER + UPPER + RUNTIME
            <==> key in {"name", "Name", "type", "Type", "url", "URL", "proxyType", "ProxyType", "authentication", "Authentication",
                        "description", "Description", "authTokens", "auth_tokens", "certificates"}
  {
  }

  /**
    Serialising, parsing and serialising again gives the first payload exactly if the name and
    type are not blank and no property has a lower-case or runtime key.
  */
  lemma PayloadRoundTripExactly(d: Destination)
    ensures (FromDict(ToDict(d)).Ok? && ToDict(FromDict(ToDict(d)).value) == ToDict(d))
            <==> HasRequired(d) && d.properties.Keys !! LOWER + RUNTIME
  {
    if d.properties.Keys !! LOWER + RUNTIME {
      ParsesTo(d);
      if HasRequired(d) {
        forall key
          ensures Get(ToDict(Reparsed(d)), key) == Get(ToDict(d), key)
        {
          FieldKept(d, key);
        }
        ToDictGet(d, "");
        ToDictGet(Reparsed(d), "");
        SameObject(ToDict(Reparsed(d)), ToDict(d));
      }
    } else if FromDict(ToDict(d)).Ok? {
      var key :| key in d.properties && key in LOWER + RUNTIME;
      KeysApart();
      NoKnownProperties(ToDict(d));
      OtherKey(d, key);
      OtherKey(FromDict(ToDict(d)).value, key);
    }
  }

  /** Parsing what was serialised gives the entity back, normalised, exactly if no property has any key known to parsing. */
  lemma EntityRoundTripExactly(d: Destination)
    ensures FromDict(ToDict(d)) == Ok(Normalised(d))
            <==> HasRequired(d) && d.properties.Keys !! LOWER + UPPER + RUNTIME
  {
    if d.properties.Keys !! LOWER + UPPER + RUNTIME {
      ParsesTo(d);
      if HasRequired(d) {
        CoreGet(d);
        ExtractMerged(Core(d), d.properties, LOWER + UPPER + RUNTIME);
        UpperGet(d);
      }
    } else if FromDict(ToDict(d)).Ok? {
      NoKnownProperties(ToDict(d));
    }
  }

  lemma UpperGet(d: Destination)
    requires d.properties.Keys !! UPPER
    ensures var obj := ToDict(d);
            && Get(obj, "URL") == d.url && Get(obj, "Description") == d.description
            && Get(obj, "ProxyType") == ChoiceJson(d.proxyType)
            && Get(obj, "Authentication") == ChoiceJson(d.authentication)
  {
  }

  /** Whatever parses, parses again to the same entity from its own payload. */
  lemma ReparsedIsSame(obj: Object)
    requires FromDict(obj).Ok?
    ensures FromDict(ToDict(FromDict(obj).value)) == FromDict(obj)
  {
    EntityRoundTripExactly(FromDict(obj).value);
  }

  /** A text field under a key parsing does not know goes through unchanged, key casing and all; other such fields are dropped. */
  lemma UnknownFieldsSurvive(obj: Object, key: string)
    requires FromDict(obj).Ok? && key !in LOWER + UPPER + RUNTIME
    ensures Get(ToDict(FromDict(obj).value), key) == if Get(obj, key).Text? then Get(obj, key) else Null
  {
  }

  /** The other casing of a core field's key. */
  function UpperOf(key: string): string {
    match key
    case "name" => "Name"
    case "type" => "Type"
    case "url" => "URL"
    case "proxyType" => "ProxyType"
    case "authentication" => "Authentication"
    case _ => "Description"
  }

  /** The same object with each core field under its lower-case key alone, the lower-case value deciding. */
  function UnderLowerKeys(obj: Object): Object {
    map k | k in obj.Keys + LOWER && k !in UPPER && (k in LOWER ==> Or(Get(obj, k), Get(obj, UpperOf(k))) != Null) ::
      if k in LOWER then Or(Get(obj, k), Get(obj, UpperOf(k))) else obj[k]
  }

  lemma SameUnknown(obj: Object)
    ensures Unknown(UnderLowerKeys(obj), LOWER + UPPER + RUNTIME) == Unknown(obj, LOWER + UPPER + RUNTIME)
  {
  }

  /** A value that is there but empty reads as none under the lower-case key. */
  function Solid(v: Json): Json {
    if Truthy(v) then v else Null
  }

  lemma CoreUnderLower(obj: Object)
    ensures var f := ExtractCore(obj);
            ExtractCore(UnderLowerKeys(obj))
            == CoreFields(Solid(f.name), Solid(f.kind), Solid(f.url), Solid(f.proxyType), Solid(f.authentication), Solid(f.description))
  {
  }

  lemma BuildSolid(f: CoreFields, properties: map<string, string>)
    requires Build(f, properties).Ok?
    ensures Build(CoreFields(Solid(f.name), Solid(f.kind), Solid(f.url), Solid(f.proxyType), Solid(f.authentication), Solid(f.description)),
                  properties) == Build(f, properties)
            <==> && (f.url == Null || Truthy(f.url)) && (f.description == Null || Truthy(f.description))
                 && f.proxyType != Text("") && f.authentication != Text("")
  {
  }

  /**
    Either casing of the core keys parses to the same destination, the lower-case one deciding
    where both hold something, exactly if no optional field is there but empty: an empty value
    counts as one under its upper-case key and as none under its lower-case key.
  */
  lemma CasingIrrelevantExactly(obj: Object)
    requires FromDict(obj).Ok?
    ensures FromDict(UnderLowerKeys(obj)) == FromDict(obj)
            <==> var f := ExtractCore(obj);
                 && (f.url == Null || Truthy(f.url)) && (f.description == Null || Truthy(f.description))
                 && f.proxyType != Text("") && f.authentication != Text("")
  {
    CoreUnderLower(obj);
    SameUnknown(obj);
    BuildSolid(ExtractCore(obj), Unknown(obj, LOWER + UPPER + RUNTIME));
  }

  // ---------- Fragments ----------

  datatype Fragment = Fragment(name: string, properties: map<string, string>)

  const FRAGMENT_KEYS := {"FragmentName", "fragmentName"}

  function FragmentFromDict(obj: Object): Parsed<Fragment> {
    var name := Or(Or(Get(obj, "FragmentName"), Get(obj, "fragmentName")), Text(""));
    if !name.Text? then NotText
    else if Blank(name.text) then MissingFields
    else Ok(Fragment(name.text, Unknown(obj, FRAGMENT_KEYS)))
  }

  /** A fragment parses exactly if its name, the upper-case key first, is a text that is not blank; the other text fields are its properties. */
  lemma FragmentParsesExactly(obj: Object, name: Json, key: string)
    requires FieldIs(obj, "FragmentName", "fragmentName", name)
    ensures FragmentFromDict(obj).Ok? <==> name.Text? && SaysSomething(name.text)
    ensures FragmentFromDict(obj) == NotText <==> name == Other(true)
    ensures FragmentFromDict(obj).Ok? ==>
              var f := FragmentFromDict(obj).value;
              && f.name == name.text
              && (key in f.properties <==> key in obj && obj[key].Text? && key !in {"FragmentName", "fragmentName"})
              && (key in f.properties ==> obj[key] == Text(f.properties[key]))
  {
    if name.Text? {
      BlankTold(name.text);
    }
    BlankTold("");
  }

  function FragmentToDict(f: Fragment): Object {
    Merged(map["FragmentName" := Text(f.name)], f.properties)
  }

  /** A fragment's payload survives a round trip exactly if its name is not blank and no property is called "fragmentName". */
  lemma FragmentRoundTripExactly(f: Fragment)
    ensures (FragmentFromDict(FragmentToDict(f)).Ok? && FragmentToDict(FragmentFromDict(FragmentToDict(f)).value) == FragmentToDict(f))
            <==> !Blank(f.name) && "fragmentName" !in f.properties
    ensures FragmentFromDict(FragmentToDict(f)) == Ok(f)
            <==> !Blank(f.name) && f.properties.Keys !! FRAGMENT_KEYS
  {
    var core := map["FragmentName" := Text(f.name)];
    var obj := FragmentToDict(f);
    ExtractMerged(core, f.properties, FRAGMENT_KEYS);
    assert "fragmentName" in obj <==> "fragmentName" in f.properties;
    if FragmentFromDict(obj).Ok? {
      var parsed := FragmentFromDict(obj).value;
      var again := FragmentToDict(parsed);
      assert "fragmentName" !in again;
      if "fragmentName" !in f.properties {
        assert again == obj;
      }
    }
  }

  // ---------- Certificates ----------

  datatype Certificate = Certificate(name: string, content: string, kind: Json, properties: map<string, string>)

  const CERTIFICATE_UPPER := {"Name", "Content", "Type"}
  const CERTIFICATE_LOWER := {"name", "content", "type"}

  function CertificateFromDict(obj: Object): Parsed<Certificate> {
    var name := Or(Or(Get(obj, "Name"), Get(obj, "name")), Text(""));
    var content := Or(Or(Get(obj, "Content"), Get(obj, "content")), Text(""));
    var kind := Or(Get(obj, "Type"), Get(obj, "type"));
    if !name.Text? then NotText
    else if Blank(name.text) then MissingFields
    else if !content.Text? then NotText
    else if Blank(content.text) then MissingFields
    else Ok(Certificate(name.text, content.text, kind, Unknown(obj, CERTIFICATE_UPPER + CERTIFICATE_LOWER)))
  }

  /** A certificate parses exactly if name and content, the upper-case keys first, are texts that are not blank. */
  lemma CertificateParsesExactly(obj: Object, name: Json, content: Json, kind: Json, key: string)
    requires FieldIs(obj, "Name", "name", name) && FieldIs(obj, "Content", "content", content) && FieldIs(obj, "Type", "type", kind)
    ensures CertificateFromDict(obj).Ok? <==> name.Text? && SaysSomething(name.text) && content.Text? && SaysSomething(content.text)
    ensures CertificateFromDict(obj) == NotText
            <==> name == Other(true) || (name.Text? && SaysSomething(name.text) && content == Other(true))
    ensures CertificateFromDict(obj).Ok? ==>
              var c := CertificateFromDict(obj).value;
              && c.name == name.text && c.content == content.text && c.kind == kind
              && (key in c.properties <==>
                    key in obj && obj[key].Text? && key !in {"Name", "name", "Content", "content", "Type", "type"})
              && (key in c.properties ==> obj[key] == Text(c.properties[key]))
  {
    if name.Text? {
      BlankTold(name.text);
    }
    if content.Text? {
      BlankTold(content.text);
    }
    BlankTold("");
  }

  function CertificateCore(c: Certificate): Object {
    Put(map["Name" := Text(c.name), "Content" := Text(c.content)], "Type", c.kind)
  }

  function CertificateToDict(c: Certificate): Object {
    Merged(CertificateCore(c), c.properties)
  }

  lemma CertificateGet(c: Certificate, key: string)
    ensures NoNulls(CertificateToDict(c))
    ensures Get(CertificateToDict(c), key)
            == if key == "Name" then Text(c.name)
               else if key == "Content" then Text(c.content)
               else if key == "Type" && c.kind != Null then c.kind
               else if key in c.properties then Text(c.properties[key]) else Null
  {
  }

  /** The type a payload carries, from the field or from a property. */
  function CarriedType(c: Certificate): Json {
    Get(CertificateToDict(c), "Type")
  }

  function CertificateReparsed(c: Certificate): Certificate {
    Certificate(c.name, c.content, if Truthy(CarriedType(c)) then CarriedType(c) else Null,
                Unknown(CertificateToDict(c), CERTIFICATE_UPPER + CERTIFICATE_LOWER))
  }

  lemma CertificateParsesTo(c: Certificate)
    requires c.properties.Keys !! CERTIFICATE_LOWER
    ensures CertificateFromDict(CertificateToDict(c))
            == if !Blank(c.name) && !Blank(c.content) then Ok(CertificateReparsed(c)) else MissingFields
  {
  }

  /**
    A certificate's payload survives a round trip exactly if name and content are not blank, no
    property has a lower-case known key, and the type it carries is absent or holds something:
    an empty type is lost.
  */
  lemma CertificateRoundTripExactly(c: Certificate)
    ensures var parsed := CertificateFromDict(CertificateToDict(c));
            (parsed.Ok? && CertificateToDict(parsed.value) == CertificateToDict(c))
            <==> && !Blank(c.name) && !Blank(c.content) && c.properties.Keys !! CERTIFICATE_LOWER
                 && (CarriedType(c) == Null || Truthy(CarriedType(c)))
  {
    var parsed := CertificateFromDict(CertificateToDict(c));
    if c.properties.Keys !! CERTIFICATE_LOWER {
      CertificateParsesTo(c);
      if parsed.Ok? {
        CertificatePayloads(c);
      }
    } else if parsed.Ok? {
      var key :| key in c.properties && key in CERTIFICATE_LOWER;
      CertificateGet(c, key);
      CertificateGet(parsed.value, key);
    }
  }

  lemma CertificatePayloads(c: Certificate)
    requires c.properties.Keys !! CERTIFICATE_LOWER
    ensures CertificateToDict(CertificateReparsed(c)) == CertificateToDict(c)
            <==> CarriedType(c) == Null || Truthy(CarriedType(c))
  {
  }

  /** And the certificate itself comes back exactly if, further, no property has a known key of either case. */
  lemma CertificateEntityExactly(c: Certificate)
    ensures CertificateFromDict(CertificateToDict(c)) == Ok(c)
            <==> && !Blank(c.name) && !Blank(c.content)
                 && c.properties.Keys !! CERTIFICATE_UPPER + CERTIFICATE_LOWER
                 && (c.kind == Null || Truthy(c.kind))
  {
    if c.properties.Keys !! CERTIFICATE_UPPER + CERTIFICATE_LOWER {
      CertificateParsesTo(c);
      CertificateGet(c, "Type");
      ExtractMerged(CertificateCore(c), c.properties, CERTIFICATE_UPPER + CERTIFICATE_LOWER);
    }
  }
}
