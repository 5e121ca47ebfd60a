/** The configuration record of include/config.hpp and the validation of
    load_config_json in src/config.cpp, over an already parsed JSON object. */
module Config {

  const U32_MAX: nat := 0xFFFF_FFFF
  /** 2^63: the first unsigned value that `get<long long>` turns negative. */
  const I64_LIMIT: nat := 0x8000_0000_0000_0000
  /** 2^64: integers from here on are stored as floating point by the JSON
      library, so they are not integers to `is_number_integer`. */
  const U64_LIMIT: nat := 0x1_0000_0000_0000_0000
  const I64_MIN: int := -0x8000_0000_0000_0000

  /** A JSON value, as far as the validation can tell them apart. */
  datatype Json = JInt(i: int) | JStr(s: string) | JBool(b: bool) | JOther

  type JsonObject = map<string, Json>

  /** The keys load_config_json reads, in the order it reads them. */
  datatype Key =
    | ServerIp | Port | MaxClients | RootDir | LogFile | LogLevel | KeepAlive
    | KeepAliveTimeout | KeepAliveMaxRequests | ReadHeaderMax | RecvChunk

  /** The JSON member name of each key. */
  function Name(k: Key): string
  {
    match k
    case ServerIp => "server_ip"
    case Port => "port"
    case MaxClients => "max_clients"
    case RootDir => "root_dir"
    case LogFile => "log_file"
    case LogLevel => "log_level"
    case KeepAlive => "keep_alive"
    case KeepAliveTimeout => "keep_alive_timeout_sec"
    case KeepAliveMaxRequests => "keep_alive_max_requests"
    case ReadHeaderMax => "read_header_max_bytes"
    case RecvChunk => "recv_chunk_size"
  }

  datatype ErrorKind = NotInteger | Negative | NotString | NotBoolean | OutOfRange | Empty

  /** The key a runtime_error names and why it was thrown. */
  datatype ConfigError = ConfigError(key: Key, kind: ErrorKind)

  datatype Result<T> = Ok(value: T) | Err(error: ConfigError)

  /** ServerConfig; every unsigned field is a nat bounded by the validation. */
  datatype ServerConfig = ServerConfig(
    serverIp: string,
    port: nat,
    maxClients: nat,
    rootDir: string,
    logFile: string,
    logLevel: string,
    keepAlive: bool,
    keepAliveTimeoutSec: nat,
    keepAliveMaxRequests: nat,
    readHeaderMaxBytes: nat,
    recvChunkSize: nat)

  /** The member initialisers of ServerConfig. */
  const DefaultConfig: ServerConfig :=
    ServerConfig("127.0.0.1", 8080, 128, "./www", "./server.log", "INFO", true, 10, 100, 32768, 65536)

  // ------------------------------------------------------------ the getters

  /** `is_number_integer`: integers the library keeps as integers. */
  predicate IsJsonInteger(v: Json)
  {
    v.JInt? && I64_MIN <= v.i < U64_LIMIT
  }

  /** `get<long long>()` of a stored integer: unsigned values from 2^63 on
      wrap around to negative values. */
  function AsLongLong(i: int): int
    requires I64_MIN <= i < U64_LIMIT
  {
    if i >= I64_LIMIT then i - U64_LIMIT else i
  }

  /** get_u64: the default when the key is missing, an error for a
      non-integer or a negative (or wrapped) value. */
  function GetU64(j: JsonObject, key: Key, def: nat): (r: Result<nat>)
    ensures r.Ok? <==> NumberOk(j, key)
    ensures r.Ok? ==> r.value == NumberOr(j, key, def)
    ensures r.Err? ==> r.error.key == key
    ensures r.Err? ==> (r.error.kind == NotInteger <==> !IsJsonInteger(j[Name(key)]))
    ensures r.Err? && IsJsonInteger(j[Name(key)]) ==> r.error.kind == Negative
  {
    var name := Name(key);
    if name !in j then Ok(def)
    else if !IsJsonInteger(j[name]) then Err(ConfigError(key, NotInteger))
    else
      var v := AsLongLong(j[name].i);
      if v < 0 then Err(ConfigError(key, Negative)) else Ok(v)
  }

  /** get_str */
  function GetStr(j: JsonObject, key: Key, def: string): (r: Result<string>)
    ensures r.Ok? <==> StringOk(j, key)
    ensures r.Ok? ==> r.value == StringOr(j, key, def)
    ensures r.Err? ==> r.error == ConfigError(key, NotString)
  {
    var name := Name(key);
    if name !in j then Ok(def)
    else if !j[name].JStr? then Err(ConfigError(key, NotString))
    else Ok(j[name].s)
  }

  /** get_bool */
  function GetBool(j: JsonObject, key: Key, def: bool): (r: Result<bool>)
    ensures r.Ok? <==> BoolOk(j, key)
    ensures r.Ok? ==> r.value == BoolOr(j, key, def)
    ensures r.Err? ==> r.error == ConfigError(key, NotBoolean)
  {
    var name := Name(key);
    if name !in j then Ok(def)
    else if !j[name].JBool? then Err(ConfigError(key, NotBoolean))
    else Ok(j[name].b)
  }

  // ------------------------------------------------- what is accepted

  /** A numeric key that is absent or holds an integer in [0, 2^63). */
  predicate NumberOk(j: JsonObject, key: Key)
  {
    Name(key) !in j || (j[Name(key)].JInt? && 0 <= j[Name(key)].i < I64_LIMIT)
  }

  function NumberOr(j: JsonObject, key: Key, def: nat): nat
    requires NumberOk(j, key)
  {
    if Name(key) in j then j[Name(key)].i else def
  }

  predicate StringOk(j: JsonObject, key: Key)
  {
    Name(key) !in j || j[Name(key)].JStr?
  }

  function StringOr(j: JsonObject, key: Key, def: string): string
    requires StringOk(j, key)
  {
    if Name(key) in j then j[Name(key)].s else def
  }

  predicate BoolOk(j: JsonObject, key: Key)
  {
    Name(key) !in j || j[Name(key)].JBool?
  }

  function BoolOr(j: JsonObject, key: Key, def: bool): bool
    requires BoolOk(j, key)
  {
    if Name(key) in j then j[Name(key)].b else def
  }

  /** A numeric key whose value (or default) lies in [lo, hi]. */
  predicate NumberIn(j: JsonObject, key: Key, def: nat, lo: nat, hi: nat)
  {
    NumberOk(j, key) && lo <= NumberOr(j, key, def) <= hi
  }

  /** The keep_alive value the object sets, when it sets a boolean. */
  predicate KeepAliveOn(j: JsonObject)
  {
    BoolOk(j, KeepAlive) && BoolOr(j, KeepAlive, DefaultConfig.keepAlive)
  }

  /** The position of each key in the order load_config_json reads it. */
  function Rank(k: Key): (n: nat)
    ensures n < 11
  {
    match k
    case ServerIp => 0
    case Port => 1
    case MaxClients => 2
    case RootDir => 3
    case LogFile => 4
    case LogLevel => 5
    case KeepAlive => 6
    case KeepAliveTimeout => 7
    case KeepAliveMaxRequests => 8
    case ReadHeaderMax => 9
    case RecvChunk => 10
  }

  /** The check load_config_json makes at the point where it reads a key:
      server_ip and root_dir are only checked for emptiness at the end. */
  predicate ReadOk(j: JsonObject, key: Key)
  {
    if key == ServerIp || key == RootDir then StringOk(j, key) else KeyAcceptable(j, key)
  }

  /** The kind of error the check made when `key` is read reports when it
      fails: a wrong type, then for a number a negative (or wrapped)
      value, then a value outside its range. */
  function FailureKind(j: JsonObject, key: Key): ErrorKind
  {
    var name := Name(key);
    if key in {ServerIp, RootDir, LogFile, LogLevel} then NotString
    else if key == KeepAlive then NotBoolean
    else if name in j && !IsJsonInteger(j[name]) then NotInteger
    else if name in j && AsLongLong(j[name].i) < 0 then Negative
    else OutOfRange
  }

  /** `e` is the error of the first check, in reading order, that the
      object fails: every key read before `e.key` passed, and an emptiness
      error comes only after every key was read, server_ip's before
      root_dir's. */
  predicate FirstFailure(j: JsonObject, e: ConfigError)
  {
    if e.kind == Empty then
      && (forall k: Key :: ReadOk(j, k))
      && ReadOk(j, ServerIp) && ReadOk(j, RootDir)
      && ((e.key == ServerIp && StringOr(j, ServerIp, DefaultConfig.serverIp) == "")
          || (e.key == RootDir && StringOr(j, ServerIp, DefaultConfig.serverIp) != ""
              && StringOr(j, RootDir, DefaultConfig.rootDir) == ""))
    else
      && !ReadOk(j, e.key)
      && e.kind == FailureKind(j, e.key)
      && (forall k: Key :: Rank(k) < Rank(e.key) ==> ReadOk(j, k))
  }

  /** What each key must satisfy for the object to be accepted. The two
      keep-alive numbers depend on the keep_alive value that was read. */
  predicate KeyAcceptable(j: JsonObject, key: Key)
  {
    var d := DefaultConfig;
    var kaMin := if KeepAliveOn(j) then 1 else 0;
    match key
    case ServerIp => StringOk(j, key) && StringOr(j, key, d.serverIp) != ""
    case Port => NumberIn(j, key, d.port, 1, 65535)
    case MaxClients => NumberIn(j, key, d.maxClients, 1, U32_MAX)
    case RootDir => StringOk(j, key) && StringOr(j, key, d.rootDir) != ""
    case LogFile => StringOk(j, key)
    case LogLevel => StringOk(j, key)
    case KeepAlive => BoolOk(j, key)
    case KeepAliveTimeout => NumberIn(j, key, d.keepAliveTimeoutSec, kaMin, U32_MAX)
    case KeepAliveMaxRequests => NumberIn(j, key, d.keepAliveMaxRequests, kaMin, U32_MAX)
    case ReadHeaderMax => NumberIn(j, key, d.readHeaderMaxBytes, 1024, U32_MAX)
    case RecvChunk => NumberIn(j, key, d.recvChunkSize, 1024, U32_MAX)
  }

  /** load_config_json returns normally exactly for these objects. */
  predicate Acceptable(j: JsonObject)
  {
    forall key: Key :: KeyAcceptable(j, key)
  }

  /** The bounds every loaded configuration satisfies. */
  predicate ValidConfig(c: ServerConfig)
  {
    && c.serverIp != [] && c.rootDir != []
    && 1 <= c.port <= 65535
    && 1 <= c.maxClients <= U32_MAX
    && (c.keepAlive ==> c.keepAliveTimeoutSec > 0 && c.keepAliveMaxRequests > 0)
    && c.keepAliveTimeoutSec <= U32_MAX && c.keepAliveMaxRequests <= U32_MAX
    && 1024 <= c.readHeaderMaxBytes <= U32_MAX
    && 1024 <= c.recvChunkSize <= U32_MAX
  }

  /** The configuration an accepted object describes: each value present
      in the object, the default otherwise. */
  function Loaded(j: JsonObject): ServerConfig
    requires Acceptable(j)
  {
    assert KeyAcceptable(j, ServerIp) && KeyAcceptable(j, Port) && KeyAcceptable(j, MaxClients)
        && KeyAcceptable(j, RootDir) && KeyAcceptable(j, LogFile) && KeyAcceptable(j, LogLevel)
        && KeyAcceptable(j, KeepAlive) && KeyAcceptable(j, KeepAliveTimeout)
        && KeyAcceptable(j, KeepAliveMaxRequests) && KeyAcceptable(j, ReadHeaderMax)
        && KeyAcceptable(j, RecvChunk);
    var d := DefaultConfig;
    ServerConfig(
      StringOr(j, ServerIp, d.serverIp),
      NumberOr(j, Port, d.port),
      NumberOr(j, MaxClients, d.maxClients),
      StringOr(j, RootDir, d.rootDir),
      StringOr(j, LogFile, d.logFile),
      StringOr(j, LogLevel, d.logLevel),
      BoolOr(j, KeepAlive, d.keepAlive),
      NumberOr(j, KeepAliveTimeout, d.keepAliveTimeoutSec),
      NumberOr(j, KeepAliveMaxRequests, d.keepAliveMaxRequests),
      NumberOr(j, ReadHeaderMax, d.readHeaderMaxBytes),
      NumberOr(j, RecvChunk, d.recvChunkSize))
  }

  // ------------------------------------------------------ load_config_json

  /** The checks on the listening and logging keys (all but emptiness). */
  predicate NetworkOk(j: JsonObject)
  {
    var d := DefaultConfig;
    && StringOk(j, ServerIp)
    && NumberIn(j, Port, d.port, 1, 65535)
    && NumberIn(j, MaxClients, d.maxClients, 1, U32_MAX)
    && StringOk(j, RootDir) && StringOk(j, LogFile) && StringOk(j, LogLevel)
  }

  /** The checks on the keep-alive keys. */
  predicate SessionOk(j: JsonObject)
  {
    KeyAcceptable(j, KeepAlive) && KeyAcceptable(j, KeepAliveTimeout) && KeyAcceptable(j, KeepAliveMaxRequests)
  }

  /** The checks on the buffer sizes. */
  predicate BuffersOk(j: JsonObject)
  {
    KeyAcceptable(j, ReadHeaderMax) && KeyAcceptable(j, RecvChunk)
  }

  /** Lines 53-72 of load_config_json. */
  method ReadNetwork(j: JsonObject, cfg: ServerConfig) returns (r: Result<ServerConfig>)
    ensures r.Err? ==> !KeyAcceptable(j, r.error.key)
    ensures r.Err? ==> r.error.kind == FailureKind(j, r.error.key)
    ensures r.Err? ==> r.error.kind != Empty && !ReadOk(j, r.error.key)
    ensures r.Err? ==> Rank(ServerIp) <= Rank(r.error.key)
    ensures r.Err? ==> forall k: Key :: Rank(ServerIp) <= Rank(k) < Rank(r.error.key) ==> ReadOk(j, k)
    ensures r.Ok? <==> NetworkOk(j)
    ensures r.Ok? ==> r.value == cfg.(
      serverIp := StringOr(j, ServerIp, DefaultConfig.serverIp),
      port := NumberOr(j, Port, DefaultConfig.port),
      maxClients := NumberOr(j, MaxClients, DefaultConfig.maxClients),
      rootDir := StringOr(j, RootDir, DefaultConfig.rootDir),
      logFile := StringOr(j, LogFile, DefaultConfig.logFile),
      logLevel := StringOr(j, LogLevel, DefaultConfig.logLevel))
  {
    var d := DefaultConfig;
    var c := cfg;
    var ip := GetStr(j, ServerIp, d.serverIp);
    if ip.Err? { return Err(ip.error); }
    c := c.(serverIp := ip.value);

    var p := GetU64(j, Port, d.port);
    if p.Err? { return Err(p.error); }
    if p.value == 0 || p.value > 65535 { return Err(ConfigError(Port, OutOfRange)); }
    c := c.(port := p.value);

    var mc := GetU64(j, MaxClients, d.maxClients);
    if mc.Err? { return Err(mc.error); }
    if mc.value == 0 || mc.value > U32_MAX { return Err(ConfigError(MaxClients, OutOfRange)); }
    c := c.(maxClients := mc.value);

    var root := GetStr(j, RootDir, d.rootDir);
    if root.Err? { return Err(root.error); }
    c := c.(rootDir := root.value);

    var lf := GetStr(j, LogFile, d.logFile);
    if lf.Err? { return Err(lf.error); }
    c := c.(logFile := lf.value);
    var ll := GetStr(j, LogLevel, d.logLevel);
    if ll.Err? { return Err(ll.error); }
    c := c.(logLevel := ll.value);
    return Ok(c);
  }

  /** Lines 74-88 of load_config_json: the limits are checked against the
      keep_alive value just read. */
  method ReadSession(j: JsonObject, cfg: ServerConfig) returns (r: Result<ServerConfig>)
    ensures r.Err? ==> !KeyAcceptable(j, r.error.key)
    ensures r.Err? ==> r.error.kind == FailureKind(j, r.error.key)
    ensures r.Err? ==> r.error.kind != Empty && !ReadOk(j, r.error.key)
    ensures r.Err? ==> Rank(KeepAlive) <= Rank(r.error.key)
    ensures r.Err? ==> forall k: Key :: Rank(KeepAlive) <= Rank(k) < Rank(r.error.key) ==> ReadOk(j, k)
    ensures r.Ok? <==> SessionOk(j)
    ensures r.Ok? ==> r.value == cfg.(
      keepAlive := BoolOr(j, KeepAlive, DefaultConfig.keepAlive),
      keepAliveTimeoutSec := NumberOr(j, KeepAliveTimeout, DefaultConfig.keepAliveTimeoutSec),
      keepAliveMaxRequests := NumberOr(j, KeepAliveMaxRequests, DefaultConfig.keepAliveMaxRequests))
  {
    var d := DefaultConfig;
    var c := cfg;
    var ka := GetBool(j, KeepAlive, d.keepAlive);
    if ka.Err? { return Err(ka.error); }
    c := c.(keepAlive := ka.value);

    var t := GetU64(j, KeepAliveTimeout, d.keepAliveTimeoutSec);
    if t.Err? { return Err(t.error); }
    if c.keepAlive && t.value == 0 { return Err(ConfigError(KeepAliveTimeout, OutOfRange)); }
    if t.value > U32_MAX { return Err(ConfigError(KeepAliveTimeout, OutOfRange)); }
    c := c.(keepAliveTimeoutSec := t.value);

    var m := GetU64(j, KeepAliveMaxRequests, d.keepAliveMaxRequests);
    if m.Err? { return Err(m.error); }
    if c.keepAlive && m.value == 0 { return Err(ConfigError(KeepAliveMaxRequests, OutOfRange)); }
    if m.value > U32_MAX { return Err(ConfigError(KeepAliveMaxRequests, OutOfRange)); }
    c := c.(keepAliveMaxRequests := m.value);
    return Ok(c);
  }

  /** Lines 90-102 of load_config_json. */
  method ReadBuffers(j: JsonObject, cfg: ServerConfig) returns (r: Result<ServerConfig>)
    ensures r.Err? ==> !KeyAcceptable(j, r.error.key)
    ensures r.Err? ==> r.error.kind == FailureKind(j, r.error.key)
    ensures r.Err? ==> r.error.kind != Empty && !ReadOk(j, r.error.key)
    ensures r.Err? ==> Rank(ReadHeaderMax) <= Rank(r.error.key)
    ensures r.Err? ==> forall k: Key :: Rank(ReadHeaderMax) <= Rank(k) < Rank(r.error.key) ==> ReadOk(j, k)
    ensures r.Ok? <==> BuffersOk(j)
    ensures r.Ok? ==> r.value == cfg.(
      readHeaderMaxBytes := NumberOr(j, ReadHeaderMax, DefaultConfig.readHeaderMaxBytes),
      recvChunkSize := NumberOr(j, RecvChunk, DefaultConfig.recvChunkSize))
  {
    var d := DefaultConfig;
    var c := cfg;
    var rh := GetU64(j, ReadHeaderMax, d.readHeaderMaxBytes);
    if rh.Err? { return Err(rh.error); }
    if rh.value < 1024 || rh.value > U32_MAX { return Err(ConfigError(ReadHeaderMax, OutOfRange)); }
    c := c.(readHeaderMaxBytes := rh.value);

    var rc := GetU64(j, RecvChunk, d.recvChunkSize);
    if rc.Err? { return Err(rc.error); }
    if rc.value < 1024 || rc.value > U32_MAX { return Err(ConfigError(RecvChunk, OutOfRange)); }
    c := c.(recvChunkSize := rc.value);
    return Ok(c);
  }

  /** Acceptance is the three groups of checks plus the two emptiness
      checks that close load_config_json. */
  lemma AcceptableByGroups(j: JsonObject)
    ensures Acceptable(j) <==>
      NetworkOk(j) && SessionOk(j) && BuffersOk(j)
      && StringOr(j, ServerIp, DefaultConfig.serverIp) != "" && StringOr(j, RootDir, DefaultConfig.rootDir) != ""
  {
    if NetworkOk(j) && SessionOk(j) && BuffersOk(j)
      && StringOr(j, ServerIp, DefaultConfig.serverIp) != "" && StringOr(j, RootDir, DefaultConfig.rootDir) != "" {
      forall key: Key ensures KeyAcceptable(j, key) {
      }
    }
    if Acceptable(j) {
      assert KeyAcceptable(j, ServerIp) && KeyAcceptable(j, Port) && KeyAcceptable(j, MaxClients)
          && KeyAcceptable(j, RootDir) && KeyAcceptable(j, LogFile) && KeyAcceptable(j, LogLevel)
          && KeyAcceptable(j, KeepAlive) && KeyAcceptable(j, KeepAliveTimeout)
          && KeyAcceptable(j, KeepAliveMaxRequests) && KeyAcceptable(j, ReadHeaderMax)
          && KeyAcceptable(j, RecvChunk);
    }
  }

  /** load_config_json: start from the defaults, overwrite the fields group
      by group, stop at the first failing check, then refuse an empty
      server_ip or root_dir. */
  method LoadConfig(j: JsonObject) returns (r: Result<ServerConfig>)
    ensures r.Err? ==> !KeyAcceptable(j, r.error.key)
    ensures r.Err? ==> FirstFailure(j, r.error)
    ensures r.Ok? <==> Acceptable(j)
    ensures r.Ok? ==> r.value == Loaded(j) && ValidConfig(r.value)
  {
    AcceptableByGroups(j);
    var cfg := DefaultConfig;
    r := ReadNetwork(j, cfg);
    if r.Err? { return; }
    cfg := r.value;
    r := ReadSession(j, cfg);
    if r.Err? { return; }
    cfg := r.value;
    r := ReadBuffers(j, cfg);
    if r.Err? { return; }
    cfg := r.value;
    if cfg.serverIp == [] { return Err(ConfigError(ServerIp, Empty)); }
    if cfg.rootDir == [] { return Err(ConfigError(RootDir, Empty)); }
    AcceptedIsValid(j);
    return Ok(cfg);
  }

  // ------------------------------------------------------------ properties

  /** An object has one first failure: the key and the kind of error
      load_config_json reports are determined by the object. */
  lemma FirstFailureUnique(j: JsonObject, e1: ConfigError, e2: ConfigError)
    requires FirstFailure(j, e1) && FirstFailure(j, e2)
    ensures e1 == e2
  {
    if e1.kind != Empty && e2.kind != Empty && Rank(e1.key) == Rank(e2.key) {
      RankInjective(e1.key, e2.key);
    }
  }

  lemma RankInjective(a: Key, b: Key)
    requires Rank(a) == Rank(b)
    ensures a == b
  {
  }

  /** An empty object loads the defaults, and the defaults are valid. */
  lemma EmptyObjectLoadsDefaults()
    ensures Acceptable(map[])
    ensures Loaded(map[]) == DefaultConfig
    ensures ValidConfig(DefaultConfig)
  {
  }

  /** Every accepted object describes a valid configuration. */
  lemma AcceptedIsValid(j: JsonObject)
    requires Acceptable(j)
    ensures ValidConfig(Loaded(j))
  {
    assert KeyAcceptable(j, ServerIp) && KeyAcceptable(j, Port) && KeyAcceptable(j, MaxClients)
        && KeyAcceptable(j, RootDir) && KeyAcceptable(j, KeepAlive) && KeyAcceptable(j, KeepAliveTimeout)
        && KeyAcceptable(j, KeepAliveMaxRequests) && KeyAcceptable(j, ReadHeaderMax)
        && KeyAcceptable(j, RecvChunk);
  }

  /** An unsigned value of 2^63 or more reads back negative and is
      rejected, whatever the numeric key. */
  lemma WrappedValueRejected(j: JsonObject, key: Key, v: int)
    requires key in {Port, MaxClients, KeepAliveTimeout, KeepAliveMaxRequests, ReadHeaderMax, RecvChunk}
    requires I64_LIMIT <= v < U64_LIMIT
    ensures GetU64(j[Name(key) := JInt(v)], key, 0) == Err(ConfigError(key, Negative))
    ensures !Acceptable(j[Name(key) := JInt(v)])
  {
    assert !KeyAcceptable(j[Name(key) := JInt(v)], key);
  }

  /** With keep-alive switched off, a zero timeout and a zero request
      limit are accepted; with it on they are not. */
  lemma KeepAliveZeroLimits(j: JsonObject)
    requires "keep_alive" in j && j["keep_alive"].JBool?
    ensures KeyAcceptable(j["keep_alive_timeout_sec" := JInt(0)], KeepAliveTimeout) <==> !j["keep_alive"].b
    ensures KeyAcceptable(j["keep_alive_max_requests" := JInt(0)], KeepAliveMaxRequests) <==> !j["keep_alive"].b
  {
  }
}
