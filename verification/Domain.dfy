/** The value types of internal/domain and their validators. */
module Domain {

  datatype Option<+T> = None | Some(value: T) {
    function GetOr(otherwise: T): T { if Some? then value else otherwise }
  }

  datatype Result<+T, +E> = Ok(value: T) | Err(error: E)

  type Byte = b: int | 0 <= b < 256

  /** net.HardwareAddr; the empty address stands for nil. */
  type MAC = seq<Byte>

  const WILDCARD: MAC := [0, 0, 0, 0, 0, 0]

  // ---------------------------------------------------------------- menus

  datatype MenuType = Install | Live | Tool | Exit | Chain | OtherType(code: int)

  datatype MenuHTTP = MenuHTTP(files: string, path: string, upstream: string)

  datatype BootParams = BootParams(
    kernel: string, initrd: string, cmdline: string, loader: string,
    files: seq<string>, binary: string, image: string, chain: string)

  const NO_HTTP := MenuHTTP("", "", "")
  const NO_BOOT := BootParams("", "", "", "", [], "", "", "")

  datatype MenuEntry = MenuEntry(
    name: string, labelText: string, description: string, kind: MenuType,
    http: MenuHTTP, boot: BootParams, sourceFile: string)
  {
    predicate Valid() {
      && name != "" && labelText != ""
      && match kind
         case Install => boot.kernel != ""
         case Live => boot.kernel != ""
         case Tool => boot.kernel != "" || boot.binary != ""
         case Exit => true
         case Chain => boot.chain != ""
         case OtherType(_) => false
    }
  }

  datatype MenuConfig = MenuConfig(entries: seq<string>, default: string, timeout: int) {
    predicate Valid() {
      && |entries| > 0 && timeout >= 0
      && (default != "" ==> default in entries)
    }
  }

  // ---------------------------------------------------------------- clients

  datatype ClientArch = BIOS | UEFIx64 | UEFIx86 | ARM64 | OtherArch(code: int)

  /** The four per-architecture file names, both of a client override and of
      the global section. */
  datatype BootFiles = BootFiles(uefx64: string, uefx86: string, bios: string, arm64: string) {
    function FileForArch(arch: ClientArch): string {
      match arch
      case UEFIx64 => uefx64
      case UEFIx86 => uefx86
      case BIOS => bios
      case ARM64 => arm64
      case OtherArch(_) => ""
    }
  }

  datatype Client = Client(
    mac: MAC, name: string, menu: MenuConfig, bootloader: Option<BootFiles>,
    vars: map<string, string>, enabled: bool, sourceFile: string)
  {
    predicate IsWildcard() { mac == WILDCARD }

    predicate Valid() { mac != [] && name != "" && menu.Valid() }
  }

  // ---------------------------------------------------------------- config

  datatype ServerConfig = ServerConfig(iface: string, dataDir: string, logLevel: string, logFormat: string) {
    predicate Valid() { iface != "" && dataDir != "" }
  }

  predicate ValidPort(port: int) { 1 <= port <= 65535 }

  datatype DHCPProxyConfig = DHCPProxyConfig(enabled: bool, port: int, proxyPort: int, vendorClass: string) {
    predicate Valid() { enabled ==> ValidPort(port) && ValidPort(proxyPort) }
  }

  /** Durations are counts of nanoseconds. */
  datatype TFTPConfig = TFTPConfig(enabled: bool, port: int, blockSize: int, timeout: int, retries: int) {
    predicate Valid() { enabled ==> ValidPort(port) }
  }

  datatype TLSConfig = TLSConfig(enabled: bool, cert: string, key: string)

  datatype HTTPConfig = HTTPConfig(enabled: bool, port: int, readTimeout: int, tls: TLSConfig) {
    predicate Valid() { enabled ==> ValidPort(port) }
  }

  datatype HealthConfig = HealthConfig(enabled: bool, interval: int, startupCheck: bool)

  datatype BootloaderConfig = BootloaderConfig(dir: string, files: BootFiles, chainURL: string) {
    predicate Valid() { dir != "" && chainURL != "" }
  }

  datatype FullConfig = FullConfig(
    server: ServerConfig, dhcpProxy: DHCPProxyConfig, tftp: TFTPConfig, http: HTTPConfig,
    health: HealthConfig, bootloader: BootloaderConfig,
    menus: seq<MenuEntry>, clients: seq<Client>)
  {
    predicate Valid() {
      && server.Valid() && dhcpProxy.Valid() && tftp.Valid() && http.Valid() && bootloader.Valid()
      && (forall m :: m in menus ==> m.Valid())
      && (forall c :: c in clients ==> c.Valid())
    }
  }

  const NO_SERVER := ServerConfig("", "", "", "")
  const NO_DHCP := DHCPProxyConfig(false, 0, 0, "")
  const NO_TFTP := TFTPConfig(false, 0, 0, 0, 0)
  const NO_TLS := TLSConfig(false, "", "")
  const NO_WEB := HTTPConfig(false, 0, 0, NO_TLS)
  const NO_HEALTH := HealthConfig(false, 0, false)
  const NO_BOOTLOADER := BootloaderConfig("", BootFiles("", "", "", ""), "")
  const EMPTY_CONFIG := FullConfig(NO_SERVER, NO_DHCP, NO_TFTP, NO_WEB, NO_HEALTH, NO_BOOTLOADER, [], [])

  // ---------------------------------------------------------------- the validators' loops

  method ValidateMenuConfig(mc: MenuConfig) returns (ok: bool)
    ensures ok <==> mc.Valid()
  {
    if mc.entries == [] {
      return false;
    }
    if mc.timeout < 0 {
      return false;
    }
    if mc.default != "" {
      var found := false;
      for i := 0 to |mc.entries|
        invariant !found && mc.default !in mc.entries[..i]
      {
        if mc.entries[i] == mc.default {
          found := true;
          break;
        }
      }
      if !found {
        return false;
      }
    }
    return true;
  }

  method ValidateConfig(cfg: FullConfig) returns (ok: bool)
    ensures ok <==> cfg.Valid()
  {
    if !cfg.server.Valid() || !cfg.dhcpProxy.Valid() || !cfg.tftp.Valid() || !cfg.http.Valid()
       || !cfg.bootloader.Valid()
    {
      return false;
    }
    for i := 0 to |cfg.menus|
      invariant forall k :: 0 <= k < i ==> cfg.menus[k].Valid()
    {
      if !cfg.menus[i].Valid() {
        assert cfg.menus[i] in cfg.menus;
        return false;
      }
    }
    for i := 0 to |cfg.clients|
      invariant forall k :: 0 <= k < i ==> cfg.clients[k].Valid()
    {
      var c := cfg.clients[i];
      var menuOk := ValidateMenuConfig(c.menu);
      if c.mac == [] || c.name == "" || !menuOk {
        assert c in cfg.clients && !c.Valid();
        return false;
      }
    }
    return true;
  }
}
