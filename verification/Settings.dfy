/**
 The settings: the configuration, the preference store it is saved in, and the
 form it is edited in.
 */
module Settings {
  import opened Wrappers
  import opened Text

  datatype ProxyConfig = ProxyConfig(port: nat, pacFile: Option<string>, allowPrivateIps: bool, listenIp: string)

  datatype UpstreamConfig = UpstreamConfig(
    authType: string, username: Option<string>, password: Option<string>, useKeyring: bool,
    domain: Option<string>, workstation: Option<string>, proxyUrl: Option<string>)

  /** The exception list is represented by its patterns. */
  datatype Config = Config(proxy: ProxyConfig, upstream: Option<UpstreamConfig>, exceptions: Option<seq<string>>)

  const DEFAULT_PORT: nat := 3128
  const DEFAULT_LISTEN_IP: string := "127.0.0.1"
  const U16_LIMIT: nat := 0x1_0000
  const NO_AUTH: string := "none"

  // ---- the preference store ------------------------------------------------

  datatype Key =
    | ProxyPort | ProxyPacFile | ProxyAllowPrivateIps | ProxyListenIp
    | UpstreamAuthType | UpstreamUsername | UpstreamPassword | UpstreamUseKeyring
    | UpstreamDomain | UpstreamWorkstation | UpstreamProxyUrl
    | ExceptionsHosts
    | Foreign(name: string)

  datatype Value = Str(text: string) | Flag(flag: bool) | Number(number: int) | List(items: seq<string>)

  type Prefs = map<Key, Value>

  function ReadString(prefs: Prefs, key: Key): Option<string> {
    if key in prefs && prefs[key].Str? then Some(prefs[key].text) else None
  }

  function ReadBool(prefs: Prefs, key: Key): Option<bool> {
    if key in prefs && prefs[key].Flag? then Some(prefs[key].flag) else None
  }

  /** A number outside the 16-bit range reads as absent. */
  function ReadNumber(prefs: Prefs, key: Key): Option<nat> {
    if key in prefs && prefs[key].Number? && 0 <= prefs[key].number < U16_LIMIT then Some(prefs[key].number) else None
  }

  function ReadList(prefs: Prefs, key: Key): Option<seq<string>> {
    if key in prefs && prefs[key].List? then Some(prefs[key].items) else None
  }

  function GetOr<T>(o: Option<T>, default: T): T {
    match o case Some(v) => v case None => default
  }

  function LoadUpstream(prefs: Prefs): Option<UpstreamConfig> {
    var authType := ReadString(prefs, UpstreamAuthType);
    var username := ReadString(prefs, UpstreamUsername);
    var proxyUrl := ReadString(prefs, UpstreamProxyUrl);
    if (authType == Some(NO_AUTH) || authType.None?) && username.None? && proxyUrl.None? then None
    else Some(UpstreamConfig(
      GetOr(authType, NO_AUTH), username, ReadString(prefs, UpstreamPassword),
      GetOr(ReadBool(prefs, UpstreamUseKeyring), true),
      ReadString(prefs, UpstreamDomain), ReadString(prefs, UpstreamWorkstation), proxyUrl))
  }

  function LoadExceptions(prefs: Prefs): Option<seq<string>> {
    match ReadList(prefs, ExceptionsHosts)
    case None => None
    case Some(hosts) => if hosts == [] then None else Some(hosts)
  }

  function Load(prefs: Prefs): Config {
    Config(
      ProxyConfig(
        GetOr(ReadNumber(prefs, ProxyPort), DEFAULT_PORT),
        ReadString(prefs, ProxyPacFile),
        GetOr(ReadBool(prefs, ProxyAllowPrivateIps), false),
        GetOr(ReadString(prefs, ProxyListenIp), DEFAULT_LISTEN_IP)),
      LoadUpstream(prefs),
      LoadExceptions(prefs))
  }

  /** The entries a save determines: every key of the application, each either
      with a value or absent. */
  function Entry(config: Config, key: Key): Option<Value> {
    var u: Option<UpstreamConfig> := config.upstream;
    match key
    case ProxyPort => Some(Number(config.proxy.port))
    case ProxyPacFile => AsText(config.proxy.pacFile)
    case ProxyAllowPrivateIps => Some(Flag(config.proxy.allowPrivateIps))
    case ProxyListenIp => Some(Str(config.proxy.listenIp))
    case UpstreamAuthType => if u.Some? then Some(Str(u.value.authType)) else None
    case UpstreamUsername => if u.Some? then AsText(u.value.username) else None
    case UpstreamPassword => if u.Some? then AsText(u.value.password) else None
    case UpstreamUseKeyring => Some(Flag(u.Some? && u.value.useKeyring))
    case UpstreamDomain => if u.Some? then AsText(u.value.domain) else None
    case UpstreamWorkstation => if u.Some? then AsText(u.value.workstation) else None
    case UpstreamProxyUrl => if u.Some? then AsText(u.value.proxyUrl) else None
    case ExceptionsHosts =>
      if config.exceptions.Some? && config.exceptions.value != [] then Some(List(config.exceptions.value)) else None
    case Foreign(_) => None
  }

  function AsText(o: Option<string>): Option<Value> {
    match o case Some(s) => Some(Str(s)) case None => None
  }

  /** The store after a save: the application's entries replaced, others kept. */
  ghost predicate SavedIn(prefs: Prefs, config: Config, before: Prefs) {
    forall key: Key :: if key.Foreign? then Same(prefs, before, key) else Holds(prefs, key, Entry(config, key))
  }

  predicate Holds(prefs: Prefs, key: Key, entry: Option<Value>) {
    match entry case Some(v) => key in prefs && prefs[key] == v case None => key !in prefs
  }

  /** One key reads the same in two stores. */
  predicate Same(a: Prefs, b: Prefs, key: Key) {
    (key in a <==> key in b) && (key in a ==> a[key] == b[key])
  }

  class PreferenceStore {
    var prefs: Prefs

    constructor (prefs: Prefs)
      ensures this.prefs == prefs
    {
      this.prefs := prefs;
    }

    /** Set a value, or remove the key. */
    method Write(key: Key, value: Option<Value>)
      modifies this
      ensures prefs == Put(old(prefs), key, value)
    {
      match value {
        case Some(v) => prefs := prefs[key := v];
        case None => prefs := prefs - {key};
      }
    }

    method SaveUpstream(upstream: UpstreamConfig)
      modifies this
      ensures prefs == PutUpstream(old(prefs), upstream)
    {
      hide Put;
      Write(UpstreamAuthType, Some(Str(upstream.authType)));
      Write(UpstreamUsername, AsText(upstream.username));
      Write(UpstreamPassword, AsText(upstream.password));
      Write(UpstreamUseKeyring, Some(Flag(upstream.useKeyring)));
      Write(UpstreamDomain, AsText(upstream.domain));
      Write(UpstreamWorkstation, AsText(upstream.workstation));
      Write(UpstreamProxyUrl, AsText(upstream.proxyUrl));
    }

    method ClearUpstream()
      modifies this
      ensures prefs == DropUpstream(old(prefs))
    {
      hide Put;
      Write(UpstreamAuthType, None);
      Write(UpstreamUsername, None);
      Write(UpstreamPassword, None);
      Write(UpstreamUseKeyring, Some(Flag(false)));
      Write(UpstreamDomain, None);
      Write(UpstreamWorkstation, None);
      Write(UpstreamProxyUrl, None);
    }

    method Save(config: Config)
      modifies this
      ensures SavedIn(prefs, config, old(prefs))
    {
      ghost var before := prefs;
      hide Put, SavedIn, PutUpstream, DropUpstream;
      Write(ProxyPort, Some(Number(config.proxy.port)));
      Write(ProxyPacFile, AsText(config.proxy.pacFile));
      Write(ProxyAllowPrivateIps, Some(Flag(config.proxy.allowPrivateIps)));
      Write(ProxyListenIp, Some(Str(config.proxy.listenIp)));
      if config.upstream.Some? {
        SaveUpstream(config.upstream.value);
      } else {
        ClearUpstream();
      }
      if config.exceptions.Some? && config.exceptions.value != [] {
        Write(ExceptionsHosts, Some(List(config.exceptions.value)));
      } else {
        Write(ExceptionsHosts, None);
      }
      SavedEntries(before, config);
    }
  }

  function Put(prefs: Prefs, key: Key, value: Option<Value>): Prefs {
    match value case Some(v) => prefs[key := v] case None => prefs - {key}
  }

  function PutProxy(prefs: Prefs, proxy: ProxyConfig): Prefs {
    Put(Put(Put(Put(prefs, ProxyPort, Some(Number(proxy.port))), ProxyPacFile, AsText(proxy.pacFile)),
            ProxyAllowPrivateIps, Some(Flag(proxy.allowPrivateIps))), ProxyListenIp, Some(Str(proxy.listenIp)))
  }

  function PutUpstream(prefs: Prefs, u: UpstreamConfig): Prefs {
    Put(Put(Put(Put(Put(Put(Put(prefs,
      UpstreamAuthType, Some(Str(u.authType))), UpstreamUsername, AsText(u.username)),
      UpstreamPassword, AsText(u.password)), UpstreamUseKeyring, Some(Flag(u.useKeyring))),
      UpstreamDomain, AsText(u.domain)), UpstreamWorkstation, AsText(u.workstation)),
      UpstreamProxyUrl, AsText(u.proxyUrl))
  }

  function DropUpstream(prefs: Prefs): Prefs {
    Put(Put(Put(Put(Put(Put(Put(prefs,
      UpstreamAuthType, None), UpstreamUsername, None), UpstreamPassword, None), UpstreamUseKeyring, Some(Flag(false))),
      UpstreamDomain, None), UpstreamWorkstation, None), UpstreamProxyUrl, None)
  }

  function PutExceptions(prefs: Prefs, exceptions: Option<seq<string>>): Prefs {
    Put(prefs, ExceptionsHosts,
        if exceptions.Some? && exceptions.value != [] then Some(List(exceptions.value)) else None)
  }

  lemma PutLooksUp(prefs: Prefs, key: Key, value: Option<Value>)
    ensures Holds(Put(prefs, key, value), key, value)
    ensures forall other: Key :: other != key ==> Same(Put(prefs, key, value), prefs, other)
  {
  }

  predicate IsProxyKey(key: Key) {
    key.ProxyPort? || key.ProxyPacFile? || key.ProxyAllowPrivateIps? || key.ProxyListenIp?
  }

  predicate IsUpstreamKey(key: Key) {
    || key.UpstreamAuthType? || key.UpstreamUsername? || key.UpstreamPassword? || key.UpstreamUseKeyring?
    || key.UpstreamDomain? || key.UpstreamWorkstation? || key.UpstreamProxyUrl?
  }

  lemma ProxyEntries(prefs: Prefs, config: Config, key: Key)
    ensures if IsProxyKey(key) then Holds(PutProxy(prefs, config.proxy), key, Entry(config, key))
            else Same(PutProxy(prefs, config.proxy), prefs, key)
  {
    hide AsText;
  }

  lemma UpstreamEntries(prefs: Prefs, config: Config, key: Key)
    ensures var after := match config.upstream case Some(u) => PutUpstream(prefs, u) case None => DropUpstream(prefs);
            if IsUpstreamKey(key) then Holds(after, key, Entry(config, key)) else Same(after, prefs, key)
  {
    hide AsText;
  }

  /** The writes of a save, in order, leave the store a save is meant to leave. */
  lemma SavedEntries(before: Prefs, config: Config)
    ensures var withProxy := PutProxy(before, config.proxy);
            var withUpstream := match config.upstream
                                case Some(u) => PutUpstream(withProxy, u)
                                case None => DropUpstream(withProxy);
            SavedIn(PutExceptions(withUpstream, config.exceptions), config, before)
  {
    hide PutProxy, PutUpstream, DropUpstream, Put, Holds;
    var withProxy := PutProxy(before, config.proxy);
    var withUpstream := match config.upstream case Some(u) => PutUpstream(withProxy, u) case None => DropUpstream(withProxy);
    var saved := PutExceptions(withUpstream, config.exceptions);
    PutLooksUp(withUpstream, ExceptionsHosts,
               if config.exceptions.Some? && config.exceptions.value != [] then Some(List(config.exceptions.value)) else None);
    forall key: Key
      ensures if key.Foreign? then Same(saved, before, key) else Holds(saved, key, Entry(config, key))
    {
      ProxyEntries(before, config, key);
      UpstreamEntries(withProxy, config, key);
      if !key.ExceptionsHosts? {
        HoldsSame(saved, withUpstream, key, Entry(config, key));
        if !IsUpstreamKey(key) {
          HoldsSame(withUpstream, withProxy, key, Entry(config, key));
        }
      }
    }
  }

  lemma HoldsSame(a: Prefs, b: Prefs, key: Key, entry: Option<Value>)
    requires Same(a, b, key)
    ensures Holds(a, key, entry) <==> Holds(b, key, entry)
  {
  }

  /** What a saved configuration comes back as: an upstream without a user, an
      address or a scheme is dropped with all its other fields, and so is an
      empty exception list. */
  function Normal(config: Config): Config {
    Config(
      config.proxy,
      match config.upstream
      case None => None
      case Some(u) =>
        if u.authType == NO_AUTH && u.username.None? && u.proxyUrl.None? then None else Some(u),
      if config.exceptions == Some([]) then None else config.exceptions)
  }

  /** Loading after saving depends only on what was saved, not on what the store
      held before, and gives the normal form. */
  lemma LoadAfterSave(prefs: Prefs, config: Config, before: Prefs)
    requires SavedIn(prefs, config, before) && config.proxy.port < U16_LIMIT
    ensures Load(prefs) == Normal(config)
  {
    LoadsProxy(prefs, config, before);
    LoadsUpstream(prefs, config, before);
    hide LoadUpstream, SavedIn, ReadString, ReadBool, ReadNumber, LoadExceptions;
  }

  lemma LoadsProxy(prefs: Prefs, config: Config, before: Prefs)
    requires SavedIn(prefs, config, before) && config.proxy.port < U16_LIMIT
    ensures Load(prefs).proxy == config.proxy
    ensures LoadExceptions(prefs) == if config.exceptions == Some([]) then None else config.exceptions
  {
    hide LoadUpstream;
    assert Holds(prefs, ProxyPort, Entry(config, ProxyPort));
    assert Holds(prefs, ProxyPacFile, Entry(config, ProxyPacFile));
    assert Holds(prefs, ProxyAllowPrivateIps, Entry(config, ProxyAllowPrivateIps));
    assert Holds(prefs, ProxyListenIp, Entry(config, ProxyListenIp));
    assert Holds(prefs, ExceptionsHosts, Entry(config, ExceptionsHosts));
  }

  lemma LoadsUpstream(prefs: Prefs, config: Config, before: Prefs)
    requires SavedIn(prefs, config, before)
    ensures LoadUpstream(prefs) == Normal(config).upstream
  {
    assert Holds(prefs, UpstreamAuthType, Entry(config, UpstreamAuthType));
    assert Holds(prefs, UpstreamUsername, Entry(config, UpstreamUsername));
    assert Holds(prefs, UpstreamPassword, Entry(config, UpstreamPassword));
    assert Holds(prefs, UpstreamUseKeyring, Entry(config, UpstreamUseKeyring));
    assert Holds(prefs, UpstreamDomain, Entry(config, UpstreamDomain));
    assert Holds(prefs, UpstreamWorkstation, Entry(config, UpstreamWorkstation));
    assert Holds(prefs, UpstreamProxyUrl, Entry(config, UpstreamProxyUrl));
  }

  // ---- host lists as text --------------------------------------------------

  /** The patterns as the form shows them. */
  function Join(hosts: seq<string>): string {
    if hosts == [] then ""
    else if |hosts| == 1 then hosts[0]
    else hosts[0] + ", " + Join(hosts[1..])
  }

  function NonBlank(pieces: seq<string>): seq<string> {
    if pieces == [] then []
    else (if Trim(pieces[0]) == "" then [] else [Trim(pieces[0])]) + NonBlank(pieces[1..])
  }

  /** The patterns in a text: cut at commas, trimmed, blanks dropped. */
  function ParseHosts(text: string): seq<string> {
    NonBlank(Split(text, ','))
  }

  predicate IsHost(s: string) {
    s != "" && Trimmed(s) && ',' !in s
  }

  predicate AllHosts(hosts: seq<string>) {
    forall h :: h in hosts ==> IsHost(h)
  }

  lemma SplitAt(first: string, rest: string)
    requires ',' !in first
    ensures Split(first + "," + rest, ',') == [first] + Split(rest, ',')
    ensures Split(first, ',') == [first]
  {
    var text := first + "," + rest;
    assert text[..|first|] == first && text[|first| + 1..] == rest;
    IndexOfUnique(text, ',', |first|);
    IndexOfUnique(first, ',', |first|);
  }

  /** Joining any list of patterns and reading the text back gives the list. */
  lemma JoinParse(hosts: seq<string>)
    requires AllHosts(hosts)
    ensures hosts != [] ==> ParseHosts(Join(hosts)) == hosts
    ensures hosts == [] ==> ParseHosts(Join(hosts)) == []
  {
    if hosts == [] {
      SplitAt("", "");
      assert Trim("") == "" && [""][1..] == [];
      assert NonBlank([""]) == NonBlank([]) == [];
    } else {
      JoinParseAfter("", hosts);
      assert "" + Join(hosts) == Join(hosts);
    }
  }

  lemma {:induction false} JoinParseAfter(space: string, hosts: seq<string>)
    requires AllHosts(hosts) && hosts != [] && (space == "" || space == " ")
    ensures ParseHosts(space + Join(hosts)) == hosts
    decreases |hosts|
  {
    hide Split, Trim, IsHost;
    var host, rest := hosts[0], hosts[1..];
    assert IsHost(host);
    PieceOf(space, host);
    if rest == [] {
      SplitAt(space + host, "");
      assert hosts == [host] && Join(hosts) == host;
      OnlyPiece(space + host);
    } else {
      SplitAt(space + host, " " + Join(rest));
      assert space + Join(hosts) == space + host + "," + (" " + Join(rest));
      JoinParseAfter(" ", rest);
      var pieces := [space + host] + Split(" " + Join(rest), ',');
      assert pieces[1..] == Split(" " + Join(rest), ',');
      assert hosts == [host] + rest;
    }
  }

  lemma OnlyPiece(piece: string)
    requires Trim(piece) != ""
    ensures NonBlank([piece]) == [Trim(piece)]
  {
    assert [piece][1..] == [];
  }

  lemma PieceOf(space: string, host: string)
    requires IsHost(host) && (space == "" || space == " ")
    ensures Trim(space + host) == host != "" && ',' !in space + host
  {
    hide Trim;
    TrimUnique(space, host, "");
    assert space + host + "" == space + host;
  }

  /** Reading a text never gives a blank, an untrimmed or a comma-holding pattern. */
  lemma ParsedAreHosts(text: string)
    ensures AllHosts(ParseHosts(text))
  {
    PiecesHoldNoComma(text);
    NonBlankAreHosts(Split(text, ','));
  }

  lemma {:induction false} PiecesHoldNoComma(text: string)
    ensures forall piece :: piece in Split(text, ',') ==> ',' !in piece
    decreases |text|
  {
    var i := IndexOf(text, ',');
    if i < |text| {
      PiecesHoldNoComma(text[i + 1..]);
    }
  }

  lemma {:induction false} NonBlankAreHosts(pieces: seq<string>)
    requires forall piece :: piece in pieces ==> ',' !in piece
    ensures AllHosts(NonBlank(pieces))
  {
    hide Trim, Trimmed;
    if pieces != [] {
      NonBlankAreHosts(pieces[1..]);
      assert pieces[0] in pieces;
      var before, after := TrimParts(pieces[0]);
      assert forall c :: c in Trim(pieces[0]) ==> c in pieces[0];
    }
  }

  // ---- the form ------------------------------------------------------------

  datatype AuthType = NoAuth | Basic | Ntlm | Kerberos

  /** How the form names a scheme. */
  function Label(t: AuthType): string {
    match t case NoAuth => "None" case Basic => "Basic" case Ntlm => "NTLM" case Kerberos => "Kerberos"
  }

  function Lowercase(s: string): string {
    if s == "" then "" else [Lower(s[0])] + Lowercase(s[1..])
  }

  /** How the configuration names a scheme. */
  function SchemeName(t: AuthType): string {
    Lowercase(Label(t))
  }

  function SchemeOf(name: string): AuthType {
    if name == "basic" then Basic else if name == "ntlm" then Ntlm else if name == "kerberos" then Kerberos else NoAuth
  }

  lemma SchemeRoundTrip(t: AuthType)
    ensures SchemeOf(SchemeName(t)) == t
    ensures SchemeName(t) == NO_AUTH <==> t == NoAuth
  {
    hide SchemeName;
    SchemeTexts();
    assert "basic"[0] == 'b' && "ntlm"[0] == 'n' && "ntlm"[1] == 't' && "kerberos"[0] == 'k' && "none"[1] == 'o';
  }

  datatype Form = Form(
    proxyPort: string, pacFile: string, allowPrivateIps: bool, proxyListenIp: string,
    authType: AuthType, username: string, password: string, useKeyring: bool,
    domain: string, workstation: string, proxyUrl: string, exceptionsHosts: string)

  /** The form shown for a configuration. */
  function NewForm(config: Config): Form {
    var u: Option<UpstreamConfig> := config.upstream;
    Form(
      Decimal(config.proxy.port),
      GetOr(config.proxy.pacFile, ""),
      config.proxy.allowPrivateIps,
      config.proxy.listenIp,
      if u.Some? then SchemeOf(u.value.authType) else NoAuth,
      if u.Some? then GetOr(u.value.username, "") else "",
      if u.Some? then GetOr(u.value.password, "") else "",
      if u.Some? then u.value.useKeyring else true,
      if u.Some? then GetOr(u.value.domain, "") else "",
      if u.Some? then GetOr(u.value.workstation, "") else "",
      if u.Some? then GetOr(u.value.proxyUrl, "") else "",
      if config.exceptions.Some? then Join(config.exceptions.value) else "")
  }

  function NonEmptyTrimmed(s: string): Option<string> {
    if Trim(s) == "" then None else Some(Trim(s))
  }

  function BuildPort(text: string): (port: nat)
    ensures port < U16_LIMIT
  {
    GetOr(ParseUnsigned(text, U16_LIMIT), DEFAULT_PORT)
  }

  function BuildUpstream(form: Form): Option<UpstreamConfig> {
    if form.authType == NoAuth && form.username == "" && form.proxyUrl == "" then None
    else Some(UpstreamConfig(
      SchemeName(form.authType),
      NonEmptyTrimmed(form.username),
      if form.useKeyring then None else NonEmptyTrimmed(form.password),
      form.useKeyring,
      NonEmptyTrimmed(form.domain),
      NonEmptyTrimmed(form.workstation),
      NonEmptyTrimmed(form.proxyUrl)))
  }

  function BuildConfig(form: Form): Config {
    Config(
      ProxyConfig(
        BuildPort(form.proxyPort),
        NonEmptyTrimmed(form.pacFile),
        form.allowPrivateIps,
        GetOr(NonEmptyTrimmed(form.proxyListenIp), DEFAULT_LISTEN_IP)),
      BuildUpstream(form),
      if Trim(form.exceptionsHosts) == "" then None else Some(ParseHosts(form.exceptionsHosts)))
  }

  // ---- the fixpoint --------------------------------------------------------

  /** A text field shown and read back is stable after one pass. */
  lemma FieldIsStable(s: string)
    ensures NonEmptyTrimmed(GetOr(NonEmptyTrimmed(s), "")) == NonEmptyTrimmed(s)
  {
  }

  lemma ListenIpIsStable(s: string)
    ensures var ip := GetOr(NonEmptyTrimmed(s), DEFAULT_LISTEN_IP);
            GetOr(NonEmptyTrimmed(ip), DEFAULT_LISTEN_IP) == ip
  {
    assert Trimmed(DEFAULT_LISTEN_IP);
    hide Trim;
  }

  lemma UpstreamIsStable(form: Form, config: Config)
    requires config.upstream == Normal(BuildConfig(form)).upstream
    ensures BuildUpstream(NewForm(config)) == config.upstream
  {
    SchemeRoundTrip(form.authType);
    SchemeRoundTrip(NoAuth);
    FieldIsStable(form.username);
    FieldIsStable(form.password);
    FieldIsStable(form.domain);
    FieldIsStable(form.workstation);
    FieldIsStable(form.proxyUrl);
    hide SchemeOf, SchemeName, Trim, Decimal, Join, ParseHosts;
  }

  lemma ExceptionsAreStable(form: Form, config: Config)
    requires config.exceptions == Normal(BuildConfig(form)).exceptions
    ensures BuildConfig(NewForm(config)).exceptions == config.exceptions
  {
    ParsedAreHosts(form.exceptionsHosts);
    hide ParseHosts, Decimal, Trim;
    if config.exceptions.Some? {
      var hosts := config.exceptions.value;
      JoinParse(hosts);
      JoinNotBlank(hosts);
    } else {
      assert Trim("") == "";
    }
  }

  lemma JoinNotBlank(hosts: seq<string>)
    requires AllHosts(hosts) && hosts != []
    ensures Trim(Join(hosts)) != ""
  {
    hide Trim;
    assert IsHost(hosts[0]);
    var text := Join(hosts);
    assert text[0] == hosts[0][0];
    TrimEmptyMeansBlank(text);
  }

  /** Whatever a form holds, once saved and loaded it is stable: showing the
      loaded configuration and building it again gives the same normal form. */
  lemma SavedFormIsStable(form: Form)
    ensures var config := Normal(BuildConfig(form)); Normal(BuildConfig(NewForm(config))) == config
  {
    StableParts(form);
    NormalIsStable(BuildConfig(form));
    hide NewForm, BuildConfig;
  }

  lemma NormalIsStable(config: Config)
    ensures Normal(Normal(config)) == Normal(config) && Normal(config).proxy == config.proxy
  {
  }

  // ---- which configurations the form keeps ---------------------------------

  predicate TrimmedText(s: string) {
    s != "" && Trimmed(s)
  }

  predicate TrimmedField(o: Option<string>) {
    o.Some? ==> TrimmedText(o.value)
  }

  predicate KnownScheme(name: string) {
    name == "none" || name == "basic" || name == "ntlm" || name == "kerberos"
  }

  predicate CanonicalUpstream(u: UpstreamConfig) {
    && KnownScheme(u.authType)
    && TrimmedField(u.username) && TrimmedField(u.password) && TrimmedField(u.domain)
    && TrimmedField(u.workstation) && TrimmedField(u.proxyUrl)
    && (u.useKeyring ==> u.password.None?)
    && (u.authType == "none" ==> u.username.Some? || u.proxyUrl.Some?)
  }

  /** Texts trimmed and not empty, a known scheme, no password beside the keyring,
      no upstream and no exception list without content. */
  predicate Canonical(c: Config) {
    && TrimmedField(c.proxy.pacFile) && TrimmedText(c.proxy.listenIp)
    && (c.upstream.Some? ==> CanonicalUpstream(c.upstream.value))
    && (c.exceptions.Some? ==> c.exceptions.value != [] && AllHosts(c.exceptions.value))
  }

  lemma FieldKeptExactlyWhen(o: Option<string>)
    ensures NonEmptyTrimmed(GetOr(o, "")) == o <==> TrimmedField(o)
  {
    assert Trim("") == "";
    hide Trim;
  }

  lemma SchemeKeptExactlyWhen(name: string)
    ensures SchemeName(SchemeOf(name)) == name <==> KnownScheme(name)
    ensures KnownScheme(name) ==> (SchemeOf(name) == NoAuth <==> name == "none")
  {
    hide SchemeName;
    SchemeTexts();
    assert "basic"[0] == 'b' && "ntlm"[0] == 'n' && "ntlm"[1] == 't' && "kerberos"[0] == 'k' && "none"[1] == 'o';
  }

  lemma SchemeTexts()
    ensures SchemeName(NoAuth) == "none" && SchemeName(Basic) == "basic"
    ensures SchemeName(Ntlm) == "ntlm" && SchemeName(Kerberos) == "kerberos"
  {
    hide Lowercase;
    LowercaseAt("None", "none");
    LowercaseAt("Basic", "basic");
    LowercaseAt("NTLM", "ntlm");
    LowercaseAt("Kerberos", "kerberos");
  }

  lemma {:induction false} LowercaseAt(s: string, t: string)
    requires |s| == |t| && forall i :: 0 <= i < |s| ==> Lower(s[i]) == t[i]
    ensures Lowercase(s) == t
  {
    if s != "" {
      LowercaseAt(s[1..], t[1..]);
      assert t == [t[0]] + t[1..];
    }
  }

  lemma UpstreamKeptExactlyWhen(c: Config)
    ensures BuildUpstream(NewForm(c)) == c.upstream <==> (c.upstream.Some? ==> CanonicalUpstream(c.upstream.value))
  {
    hide SchemeName, SchemeOf, KnownScheme, Decimal, Join, TrimmedText, Trim;
    if c.upstream.Some? {
      var u: UpstreamConfig := c.upstream.value;
      SchemeKeptExactlyWhen(u.authType);
      EmptyIsNoText();
      FieldKeptExactlyWhen(u.username);
      FieldKeptExactlyWhen(u.password);
      FieldKeptExactlyWhen(u.domain);
      FieldKeptExactlyWhen(u.workstation);
      FieldKeptExactlyWhen(u.proxyUrl);
      UpstreamFieldsKept(c, u);
    }
  }

  lemma EmptyIsNoText()
    ensures !TrimmedText("") && SchemeOf("none") == NoAuth
  {
    assert "none"[0] == 'n' && "none"[1] == 'o' && "basic"[0] == 'b' && "ntlm"[1] == 't' && "kerberos"[0] == 'k';
  }

  lemma UpstreamFieldsKept(c: Config, u: UpstreamConfig)
    requires c.upstream == Some(u) && !TrimmedText("") && SchemeOf("none") == NoAuth
    requires SchemeName(SchemeOf(u.authType)) == u.authType <==> KnownScheme(u.authType)
    requires KnownScheme(u.authType) ==> (SchemeOf(u.authType) == NoAuth <==> u.authType == "none")
    requires NonEmptyTrimmed(GetOr(u.username, "")) == u.username <==> TrimmedField(u.username)
    requires NonEmptyTrimmed(GetOr(u.password, "")) == u.password <==> TrimmedField(u.password)
    requires NonEmptyTrimmed(GetOr(u.domain, "")) == u.domain <==> TrimmedField(u.domain)
    requires NonEmptyTrimmed(GetOr(u.workstation, "")) == u.workstation <==> TrimmedField(u.workstation)
    requires NonEmptyTrimmed(GetOr(u.proxyUrl, "")) == u.proxyUrl <==> TrimmedField(u.proxyUrl)
    ensures BuildUpstream(NewForm(c)) == Some(u) <==> CanonicalUpstream(u)
  {
    hide SchemeName, SchemeOf, KnownScheme, Decimal, Join, TrimmedText, NonEmptyTrimmed;
    var form := NewForm(c);
    assert form.authType == SchemeOf(u.authType) && form.username == GetOr(u.username, "");
    assert form.proxyUrl == GetOr(u.proxyUrl, "") && form.password == GetOr(u.password, "");
  }

  lemma ExceptionsKeptExactlyWhen(c: Config)
    ensures BuildConfig(NewForm(c)).exceptions == c.exceptions
       <==> (c.exceptions.Some? ==> c.exceptions.value != [] && AllHosts(c.exceptions.value))
  {
    assert Trim("") == "";
    hide ParseHosts, Decimal, Trim, AllHosts;
    if c.exceptions.Some? {
      var hosts := c.exceptions.value;
      ParsedAreHosts(Join(hosts));
      if hosts != [] && AllHosts(hosts) {
        JoinParse(hosts);
        JoinNotBlank(hosts);
      }
    }
  }

  /** Showing a configuration and building it again gives it back exactly when it
      is canonical, for every configuration with a 16-bit port: no setting is
      changed on the way, dropped or made up. */
  lemma FormKeepsExactlyWhen(c: Config)
    requires c.proxy.port < U16_LIMIT
    ensures BuildConfig(NewForm(c)) == c <==> Canonical(c)
  {
    UpstreamKeptExactlyWhen(c);
    ExceptionsKeptExactlyWhen(c);
    FieldKeptExactlyWhen(c.proxy.pacFile);
    ListenIpKeptExactlyWhen(c.proxy.listenIp);
    ParsePrintedNumber(c.proxy.port, U16_LIMIT);
    hide BuildUpstream, CanonicalUpstream, ParseHosts, Decimal, Trim, ParseUnsigned, Join, AllHosts, TrimmedText, TrimmedField;
  }

  lemma ListenIpKeptExactlyWhen(ip: string)
    ensures GetOr(NonEmptyTrimmed(ip), DEFAULT_LISTEN_IP) == ip <==> TrimmedText(ip)
  {
    assert Trimmed(DEFAULT_LISTEN_IP);
    hide Trim;
  }

  /** The entry of a text field: its trimmed text, or none. */
  predicate HoldsText(entry: Option<Value>, text: string) {
    if Blank(text) then entry == None else entry == Some(Str(Trim(text)))
  }

  /** Every form is saved field by field: each entry of the application holds what
      its own field says, and nothing else. First the proxy's own settings and the
      exceptions, then the upstream's. */
  lemma FormIsSaved(form: Form)
    ensures var c := BuildConfig(form);
            && HoldsText(Entry(c, ProxyPacFile), form.pacFile)
            && Entry(c, ProxyAllowPrivateIps) == Some(Flag(form.allowPrivateIps))
            && Entry(c, ProxyListenIp) == Some(Str(if Blank(form.proxyListenIp) then "127.0.0.1" else Trim(form.proxyListenIp)))
            && Entry(c, ProxyPort)
            == Some(Number(match ParseUnsigned(form.proxyPort, 65536) case Some(n) => n case None => 3128))
            && Entry(c, ExceptionsHosts)
            == (if ParseHosts(form.exceptionsHosts) == [] then None else Some(List(ParseHosts(form.exceptionsHosts))))
  {
    hide Trim, Blank, ParseHosts, ParseUnsigned, BuildUpstream;
    BlankExceptions(form.exceptionsHosts);
    TrimEmptyMeansBlank(form.pacFile);
    TrimEmptyMeansBlank(form.proxyListenIp);
  }

  lemma BlankExceptions(text: string)
    ensures Trim(text) == "" ==> ParseHosts(text) == []
  {
    hide Trim;
    TrimEmptyMeansBlank(text);
    if Blank(text) {
      assert text[..|text|] == text && ',' !in text;
      IndexOfUnique(text, ',', |text|);
      assert Split(text, ',') == [text] && [text][1..] == [];
      assert NonBlank([text]) == NonBlank([text][1..]) == [];
    }
  }

  lemma UpstreamFormIsSaved(form: Form)
    ensures var c := BuildConfig(form);
            if form.authType == NoAuth && form.username == "" && form.proxyUrl == "" then
              && Entry(c, UpstreamUseKeyring) == Some(Flag(false))
              && Entry(c, UpstreamAuthType) == None && Entry(c, UpstreamUsername) == None
              && Entry(c, UpstreamPassword) == None && Entry(c, UpstreamDomain) == None
              && Entry(c, UpstreamWorkstation) == None && Entry(c, UpstreamProxyUrl) == None
            else
              && Entry(c, UpstreamAuthType) == Some(Str(match form.authType
                                                        case NoAuth => "none"
                                                        case Basic => "basic"
                                                        case Ntlm => "ntlm"
                                                        case Kerberos => "kerberos"))
              && HoldsText(Entry(c, UpstreamUsername), form.username)
              && (if form.useKeyring then Entry(c, UpstreamPassword) == None
                  else HoldsText(Entry(c, UpstreamPassword), form.password))
              && Entry(c, UpstreamUseKeyring) == Some(Flag(form.useKeyring))
              && HoldsText(Entry(c, UpstreamDomain), form.domain)
              && HoldsText(Entry(c, UpstreamWorkstation), form.workstation)
              && HoldsText(Entry(c, UpstreamProxyUrl), form.proxyUrl)
  {
    hide Trim, Blank, ParseHosts, ParseUnsigned, SchemeName, HoldsText, NonEmptyTrimmed, AsText;
    SchemeTexts();
    TextIsSaved(form.username);
    TextIsSaved(form.password);
    TextIsSaved(form.domain);
    TextIsSaved(form.workstation);
    TextIsSaved(form.proxyUrl);
    AbsentText();
  }

  lemma TextIsSaved(text: string)
    ensures HoldsText(AsText(NonEmptyTrimmed(text)), text)
  {
    hide Trim, Blank;
    TrimEmptyMeansBlank(text);
  }

  lemma AbsentText()
    ensures AsText(None) == None
  {
  }

  /** An empty store loads as the defaults, and they are shown as such. */
  lemma DefaultsLoaded()
    ensures Load(map[]) == Config(ProxyConfig(3128, None, false, "127.0.0.1"), None, None)
    ensures NewForm(Load(map[]))
         == Form("3128", "", false, "127.0.0.1", NoAuth, "", "", true, "", "", "", "")
  {
    PortDigits();
    hide Decimal;
  }

  predicate HasText(prefs: Prefs, key: Key) {
    key in prefs && prefs[key].Str?
  }

  predicate HasFlag(prefs: Prefs, key: Key) {
    key in prefs && prefs[key].Flag?
  }

  /** Every key stands for itself: one that is missing, of another type or, for the
      port, no 16-bit number loads as its default, whatever else is stored. */
  lemma MissingKeysLoaded(prefs: Prefs)
    ensures var c := Load(prefs);
            && (!(ProxyPort in prefs && prefs[ProxyPort].Number? && 0 <= prefs[ProxyPort].number <= 65535) ==>
                  c.proxy.port == 3128)
            && (!HasText(prefs, ProxyPacFile) ==> c.proxy.pacFile == None)
            && (!HasFlag(prefs, ProxyAllowPrivateIps) ==> !c.proxy.allowPrivateIps)
            && (!HasText(prefs, ProxyListenIp) ==> c.proxy.listenIp == "127.0.0.1")
            && (!(ExceptionsHosts in prefs && prefs[ExceptionsHosts].List?) ==> c.exceptions == None)
    ensures var c := Load(prefs);
            c.upstream.Some? ==>
              && (!HasText(prefs, UpstreamAuthType) ==> c.upstream.value.authType == "none")
              && (!HasFlag(prefs, UpstreamUseKeyring) ==> c.upstream.value.useKeyring)
              && (!HasText(prefs, UpstreamPassword) ==> c.upstream.value.password == None)
  {
  }

  lemma PortDigits()
    ensures Decimal(3128) == "3128"
  {
    assert Decimal(3) == "3" && Decimal(31) == "31" && Decimal(312) == "312";
  }

  /** One pass: load, show, build, save, load. `prefs` is the store the pass
      starts from, `saved` the store it leaves. */
  ghost predicate Pass(prefs: Prefs, saved: Prefs) {
    SavedIn(saved, BuildConfig(NewForm(Load(prefs))), prefs)
  }

  /** The pass is idempotent from every store: what the first pass loads, the
      second pass loads again. */
  lemma PassIsIdempotent(start: Prefs, first: Prefs, second: Prefs)
    requires Pass(start, first) && Pass(first, second)
    ensures Load(second) == Load(first)
  {
    var form := NewForm(Load(start));
    hide Load, Normal, NewForm, BuildConfig, SavedIn;
    BuiltPortFits(form);
    LoadAfterSave(first, BuildConfig(form), start);
    BuiltPortFits(NewForm(Load(first)));
    LoadAfterSave(second, BuildConfig(NewForm(Load(first))), first);
    SavedFormIsStable(form);
  }

  /** A second save leaves the store as it is exactly when it writes the same
      entries. */
  lemma SecondSave(before: Prefs, first: Prefs, second: Prefs, saved: Config, again: Config)
    requires SavedIn(first, saved, before) && SavedIn(second, again, first)
    ensures second == first <==> forall key: Key :: Entry(again, key) == Entry(saved, key)
  {
    forall key: Key
      ensures Same(second, first, key) <==> Entry(again, key) == Entry(saved, key)
    {
      SecondEntry(before, first, second, saved, again, key);
    }
    hide Entry, SavedIn;
    if second != first {
      assert exists key: Key :: !Same(second, first, key) by {
        if forall key: Key :: Same(second, first, key) {
          SameStores(second, first);
        }
      }
    }
  }

  lemma SecondEntry(before: Prefs, first: Prefs, second: Prefs, saved: Config, again: Config, key: Key)
    requires SavedIn(first, saved, before) && SavedIn(second, again, first)
    ensures Same(second, first, key) <==> Entry(again, key) == Entry(saved, key)
  {
    if key.Foreign? {
      assert Same(second, first, key);
    } else {
      assert Holds(first, key, Entry(saved, key)) && Holds(second, key, Entry(again, key));
      hide Entry;
    }
  }

  lemma SameStores(a: Prefs, b: Prefs)
    requires forall key: Key :: Same(a, b, key)
    ensures a == b
  {
    forall key: Key
      ensures (key in a <==> key in b) && (key in a ==> a[key] == b[key])
    {
      assert Same(a, b, key);
    }
  }

  /** From the second pass on the store itself is fixed. */
  lemma StoreFixedAfterTwoPasses(start: Prefs, first: Prefs, second: Prefs, third: Prefs)
    requires Pass(start, first) && Pass(first, second) && Pass(second, third)
    ensures third == second
  {
    hide Load, NewForm, BuildConfig, Entry, SavedIn;
    PassIsIdempotent(start, first, second);
    var config := BuildConfig(NewForm(Load(first)));
    SecondSave(first, second, third, config, config);
  }

  /** A form that names no upstream, but holds white space where a user or an
      address would stand. */
  predicate BlankUpstream(form: Form) {
    && form.authType == NoAuth
    && Trim(form.username) == "" && Trim(form.proxyUrl) == ""
    && (form.username != "" || form.proxyUrl != "")
  }

  /** The store is fixed already after the first pass exactly when the form shown
      in it names no blank upstream: that one is saved and dropped on loading. */
  lemma StoreFixedAfterOnePassExactlyWhen(start: Prefs, first: Prefs, second: Prefs)
    requires Pass(start, first) && Pass(first, second)
    ensures second == first <==> !BlankUpstream(NewForm(Load(start)))
  {
    var form := NewForm(Load(start));
    BuiltPortFits(form);
    hide Load, NewForm, BuildConfig, Entry, SavedIn, Normal, BlankUpstream;
    var saved, again := BuildConfig(form), BuildConfig(NewForm(Load(first)));
    LoadAfterSave(first, saved, start);
    EntriesOfSecondPass(form);
    SecondSave(start, first, second, saved, again);
  }

  lemma EntriesOfSecondPass(form: Form)
    ensures var saved := BuildConfig(form);
            var again := BuildConfig(NewForm(Normal(saved)));
            (forall key: Key :: Entry(again, key) == Entry(saved, key)) <==> !BlankUpstream(form)
  {
    var saved := BuildConfig(form);
    var again := BuildConfig(NewForm(Normal(saved)));
    StableParts(form);
    BlankIsDropped(form);
    hide BuildConfig, NewForm, Normal, BlankUpstream;
    EntriesDiffer(saved, again);
  }

  lemma BlankIsDropped(form: Form)
    ensures var saved := BuildConfig(form);
            BlankUpstream(form) <==> saved.upstream.Some? && Normal(saved).upstream.None?
  {
    SchemeRoundTrip(form.authType);
    hide SchemeName, Trim, ParseHosts;
  }

  lemma StableParts(form: Form)
    ensures var saved := BuildConfig(form);
            var again := BuildConfig(NewForm(Normal(saved)));
            && again.proxy == saved.proxy
            && again.upstream == Normal(saved).upstream
            && again.exceptions == Normal(saved).exceptions
  {
    var config := Normal(BuildConfig(form));
    UpstreamIsStable(form, config);
    ExceptionsAreStable(form, config);
    ListenIpIsStable(form.proxyListenIp);
    FieldIsStable(form.pacFile);
    ParsePrintedNumber(config.proxy.port, U16_LIMIT);
    hide ParseHosts, Decimal, Trim, BuildUpstream, ParseUnsigned, Join;
  }

  lemma EntriesDiffer(saved: Config, again: Config)
    requires again.proxy == saved.proxy
    requires again.upstream == Normal(saved).upstream && again.exceptions == Normal(saved).exceptions
    ensures (forall key: Key :: Entry(again, key) == Entry(saved, key))
       <==> !(saved.upstream.Some? && Normal(saved).upstream.None?)
  {
    if saved.upstream.Some? && Normal(saved).upstream.None? {
      assert Entry(again, UpstreamAuthType) != Entry(saved, UpstreamAuthType);
    } else {
      forall key: Key
        ensures Entry(again, key) == Entry(saved, key)
      {
        hide AsText;
      }
    }
  }

  lemma BuiltPortFits(form: Form)
    ensures BuildConfig(form).proxy.port < U16_LIMIT
  {
  }

  // ---- the port field ------------------------------------------------------

  /** The port a text is validated as; none when the form shows an error. */
  function ValidPort(text: string): Option<nat> {
    match ParseUnsigned(Trim(text), 0x1_0000_0000)
    case Some(n) => if 1 <= n <= 65535 then Some(n) else None
    case None => None
  }

  /** Which printed numbers the form accepts, with or without white space around. */
  lemma AcceptedPorts(n: nat, before: string, after: string)
    requires Blank(before) && Blank(after)
    ensures ValidPort(before + Decimal(n) + after) == if 1 <= n <= 65535 then Some(n) else None
  {
    hide Trim, Decimal, ParseUnsigned;
    PlainNumber(n);
    TrimUnique(before, Decimal(n), after);
    ParsePrintedNumber(n, 0x1_0000_0000);
  }

  lemma PlainNumber(n: nat)
    ensures Trimmed(Decimal(n))
  {
    var s := Decimal(n);
    assert s[0] in s && s[|s| - 1] in s;
  }

  /** A port the form accepts is the port saved exactly when its text has no
      white space around it: the validation trims, the conversion does not, and
      falls back to the default port. */
  lemma AcceptedPortIsSavedExactlyWhen(text: string)
    requires ValidPort(text).Some?
    ensures BuildPort(text) == ValidPort(text).value <==> Trimmed(text) || ValidPort(text).value == DEFAULT_PORT
  {
    if Trimmed(text) {
      LimitDoesNotMatter(text, 0x1_0000_0000);
    } else {
      UntrimmedIsNoNumber(text);
    }
  }

  /** An accepted port that is saved as another. */
  lemma SpacedPortIsLost()
    ensures ValidPort(" 80") == Some(80) && BuildPort(" 80") == DEFAULT_PORT
  {
    assert Trimmed("80") && " " + "80" == " 80";
    TrimAfterSpace("80");
    assert Decimal(8) == "8" && Decimal(80) == "80";
    ParsePrintedNumber(80, 0x1_0000_0000);
    UntrimmedIsNoNumber(" 80");
    hide Trim;
  }

  lemma LimitDoesNotMatter(text: string, limit: nat)
    requires limit >= U16_LIMIT
    requires ParseUnsigned(text, limit).Some? && ParseUnsigned(text, limit).value < U16_LIMIT
    ensures ParseUnsigned(text, U16_LIMIT) == ParseUnsigned(text, limit)
  {
  }

  lemma UntrimmedIsNoNumber(text: string)
    requires !Trimmed(text)
    ensures ParseUnsigned(text, U16_LIMIT) == None
  {
    var digits := if text[0] == '+' then text[1..] else text;
    if digits != "" {
      assert digits[|digits| - 1] == text[|text| - 1];
      assert digits[0] in digits && digits[|digits| - 1] in digits;
    }
  }
}
