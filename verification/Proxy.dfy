/** The DHCP proxy's decisions: which packets are answered, and with what. */
module Proxy {
  import opened Text
  import opened Domain
  import opened Mac
  import opened Rewriting
  import opened Substitution
  import opened Registry
  import Serving

  datatype Kind = Discover | Request | OtherKind(code: nat)

  /** What handleMessage looks at; an option that is absent is None. */
  datatype Message = Message(kind: Kind, mac: MAC, classID: Option<string>, option93: Option<seq<Byte>>,
                             userClass: Option<string>)

  datatype ReplyKind = Offer | Ack

  /** The parts of the reply that depend on the message. */
  datatype ProxyReply = ProxyReply(kind: ReplyKind, bootfile: string, pxeOptions: bool)

  function CodesOf(arch: ClientArch): set<int> {
    match arch
    case BIOS => {0}
    case UEFIx86 => {6}
    case UEFIx64 => {7, 9}
    case ARM64 => {11}
    case OtherArch(_) => {}
  }

  function ParseArch(option93: int): (r: Option<ClientArch>)
    ensures forall a :: r == Some(a) <==> option93 in CodesOf(a)
  {
    if option93 == 0 then Some(BIOS)
    else if option93 == 6 then Some(UEFIx86)
    else if option93 == 7 || option93 == 9 then Some(UEFIx64)
    else if option93 == 11 then Some(ARM64)
    else None
  }

  /** The first two bytes, most significant first, name the architecture. */
  predicate Announces(option93: Option<seq<Byte>>, arch: ClientArch) {
    && option93.Some? && |option93.value| >= 2
    && 256 * (option93.value[0] as int) + option93.value[1] as int in CodesOf(arch)
  }

  method ArchFromOption93(option93: Option<seq<Byte>>) returns (r: Option<ClientArch>)
    ensures forall a :: r == Some(a) <==> Announces(option93, a)
  {
    if option93.None? {
      return None;
    }
    var opt := option93.value;
    if |opt| < 2 {
      return None;
    }
    return ParseArch(256 * (opt[0] as int) + opt[1] as int);
  }

  ghost predicate IsPXE(m: Message) {
    m.classID.Some? && Occurs("PXEClient", m.classID.value)
  }

  ghost predicate RunsIPXE(m: Message) {
    m.userClass.Some? && Occurs("iPXE", m.userClass.value)
  }

  method IsIPXE(m: Message) returns (r: bool)
    ensures r <==> RunsIPXE(m)
  {
    if m.userClass.None? {
      return false;
    }
    r := Loader.Contains(m.userClass.value, "iPXE");
  }

  class ProxyServer {
    const registry: ClientRegistry?
    const files: BootFiles
    const chainURL: string
    const serverIP: string
    const httpPort: int

    constructor (registry: ClientRegistry?, files: BootFiles, chainURL: string, serverIP: string, httpPort: int)
      ensures this.registry == registry && this.files == files && this.chainURL == chainURL
      ensures this.serverIP == serverIP && this.httpPort == httpPort
    {
      this.registry, this.files, this.chainURL := registry, files, chainURL;
      this.serverIP, this.httpPort := serverIP, httpPort;
    }

    /** Where a machine of this architecture is sent next: running iPXE to the
        menu, otherwise to its first boot file. */
    ghost function Next(m: Message, arch: ClientArch): string
      reads registry
    {
      if RunsIPXE(m) then ChainURL(chainURL, serverIP, httpPort, MacString(m.mac))
      else Serving.BootFile(Serving.Registered(registry, m.mac), files, arch)
    }

    /** The file that the configuration names for the first two bytes of the
        option. */
    function FileFor(option93: Option<seq<Byte>>): string {
      if option93.None? || |option93.value| < 2 || option93.value[0] != 0 then ""
      else if option93.value[1] == 0 then files.bios
      else if option93.value[1] == 6 then files.uefx86
      else if option93.value[1] == 7 then files.uefx64
      else if option93.value[1] == 9 then files.uefx64
      else if option93.value[1] == 11 then files.arm64
      else ""
    }

    /** A machine without boot files of its own. */
    ghost predicate Plain(mac: MAC)
      reads registry
    {
      Serving.Registered(registry, mac).None? || Serving.Registered(registry, mac).value.bootloader.None?
    }

    /** Firmware without files of its own is sent the configured file, if there is
        one. */
    lemma PlainFirmware(m: Message, file: string)
      requires !RunsIPXE(m) && Plain(m.mac)
      ensures Sends(m, file) <==> file == FileFor(m.option93) && file != ""
    {
      hide RunsIPXE, Serving.Registered;
      if m.option93.Some? && |m.option93.value| >= 2 {
        var code := 256 * (m.option93.value[0] as int) + m.option93.value[1] as int;
        assert forall a :: Announces(m.option93, a) <==> code in CodesOf(a);
        assert Announces(m.option93, BIOS) <==> code == 0;
        assert Announces(m.option93, UEFIx86) <==> code == 6;
        assert Announces(m.option93, UEFIx64) <==> code == 7 || code == 9;
        assert Announces(m.option93, ARM64) <==> code == 11;
      }
    }

    ghost predicate Sends(m: Message, bootfile: string)
      reads registry
    {
      bootfile != "" && exists a :: Announces(m.option93, a) && Next(m, a) == bootfile
    }

    /** Answered are exactly the discovers and requests of PXE machines of a
        known architecture for which there is something to boot. */
    method HandleMessage(m: Message) returns (r: Option<ProxyReply>)
      ensures r.Some? <==> !m.kind.OtherKind? && IsPXE(m) && exists file :: Sends(m, file)
      ensures r.Some? ==> Sends(m, r.value.bootfile) && (r.value.pxeOptions <==> !RunsIPXE(m))
      ensures r.Some? ==> (r.value.kind == Ack <==> m.kind == Kind.Request)
      ensures !m.kind.OtherKind? && m.classID.Some? && Occurs("PXEClient", m.classID.value) && Plain(m.mac)
              && !(m.userClass.Some? && Occurs("iPXE", m.userClass.value)) ==>
                r == if FileFor(m.option93) == "" then None
                     else Some(ProxyReply(if m.kind.Request? then Ack else Offer, FileFor(m.option93), true))
    {
      if !RunsIPXE(m) && Plain(m.mac) {
        forall file ensures Sends(m, file) <==> file == FileFor(m.option93) && file != "" {
          PlainFirmware(m, file);
        }
        assert FileFor(m.option93) != "" ==> Sends(m, FileFor(m.option93));
      }
      hide FileFor, Plain;
      hide ChainURL, MacString, Occurs, Serving.BootFile, CodesOf;
      if m.kind != Discover && m.kind != Kind.Request {
        return None;
      }
      if m.classID.None? {
        return None;
      }
      var isPXE := Loader.Contains(m.classID.value, "PXEClient");
      if !isPXE {
        return None;
      }
      var arch := ArchFromOption93(m.option93);
      if arch.None? {
        NothingAnnounced(m, arch);
        return None;
      }
      assert forall a :: Announces(m.option93, a) <==> a == arch.value;
      var ipxe := IsIPXE(m);
      var bootfile: string;
      if ipxe {
        bootfile := ResolveChainURL(chainURL, serverIP, httpPort, MacString(m.mac));
      } else {
        bootfile := Serving.BootfileForClient(registry, files, m.mac, arch.value);
      }
      assert Next(m, arch.value) == bootfile;
      assert forall file :: Sends(m, file) ==> file == bootfile;
      if bootfile == "" {
        return None;
      }
      assert Sends(m, bootfile);
      var reply := ProxyReply(Offer, bootfile, !ipxe);
      if m.kind == Kind.Request {
        reply := reply.(kind := Ack);
      }
      return Some(reply);
    }

    lemma NothingAnnounced(m: Message, arch: Option<ClientArch>)
      requires arch.None? && forall a :: arch == Some(a) <==> Announces(m.option93, a)
      ensures !exists file :: Sends(m, file)
    {
      hide Announces, Next;
      forall a ensures !Announces(m.option93, a) {
        assert arch != Some(a);
      }
    }
  }

  // ---------------------------------------------------------------- the way to the menu

  lemma {:induction false} ReplaceKeepsText(s: string, p: string, v: string)
    requires s != "" && p != "" && v != ""
    ensures ReplaceAll(s, p, v) != ""
  {
  }

  /** A machine that runs iPXE always gets a URL once one is configured. */
  lemma ChainIsSomewhere(template: string, serverIP: string, httpPort: int, mac: MAC)
    requires template != "" && serverIP != "" && mac != []
    ensures ChainURL(template, serverIP, httpPort, MacString(mac)) != ""
  {
    hide ReplaceAll, MacString, Decimal;
    assert MacString(mac) != "" by { PairsBack(mac); }
    assert Decimal(httpPort) != "" by { DecimalHasText(httpPort); }
    BuiltinsSpelled(template, BuiltinValues(Vars(serverIP, httpPort, MacString(mac), map[])));
    var one := ReplaceAll(template, "${server_ip}", serverIP);
    var two := ReplaceAll(one, "${http_port}", Decimal(httpPort));
    ReplaceKeepsText(template, "${server_ip}", serverIP);
    ReplaceKeepsText(one, "${http_port}", Decimal(httpPort));
    ReplaceKeepsText(two, "${mac}", MacString(mac));
  }

  lemma DecimalHasText(n: int)
    ensures Decimal(n) != ""
  {
  }

  /** The chain URL of the documentation and the examples. */
  const DOCUMENTED: seq<Piece> :=
    [Txt("http://"), Hole("server_ip"), Txt(":"), Hole("http_port"), Txt("/boot/"), Hole("mac"), Txt("/menu.ipxe")]

  /** With it a machine is sent to the menu of its own address: the handler
      reads back from the URL the address the packet came from, exactly when
      that has a length net.ParseMAC knows. */
  lemma DocumentedChainLeadsHome(serverIP: string, httpPort: int, mac: MAC)
    requires '$' !in serverIP
    ensures ChainURL(Render(DOCUMENTED), serverIP, httpPort, MacString(mac))
            == "http://" + serverIP + ":" + Decimal(httpPort) + "/boot/" + MacString(mac) + "/menu.ipxe"
    ensures NetParseMAC(MacString(mac)) == if KnownLength(mac) then Some(mac) else None
  {
    hide MacString, Decimal, ReplaceAll, NetParseMAC, Placeholder, Render, Put;
    assert WellFormed(DOCUMENTED) by { DocumentedIsWellFormed(); }
    ParsedBack(mac);
    LastBuiltin(DOCUMENTED, serverIP, httpPort, MacString(mac));
    var port, own := Decimal(httpPort), MacString(mac);
    var filled := Put(Put(DOCUMENTED, map["server_ip" := serverIP, "http_port" := port]), map["mac" := own]);
    DocumentedFilled(serverIP, port, own);
    assert Render(filled) == "http://" + serverIP + ":" + port + "/boot/" + own + "/menu.ipxe" by {
      SevenTexts("http://", serverIP, ":", port, "/boot/", own, "/menu.ipxe");
    }
  }

  lemma DocumentedIsWellFormed()
    ensures WellFormed(DOCUMENTED)
  {
    hide SimpleKey;
    NamesAreSimple();
    TextsAreFree();
    forall p | p in DOCUMENTED ensures (p.Hole? ==> SimpleKey(p.name)) && (p.Txt? ==> Free(p.text)) {
      var i :| 0 <= i < |DOCUMENTED| && DOCUMENTED[i] == p;
    }
  }

  predicate Free(s: string) { '$' !in s }

  lemma NamesAreSimple()
    ensures SimpleKey("server_ip") && SimpleKey("http_port") && SimpleKey("mac")
  {
  }

  lemma TextsAreFree()
    ensures Free("http://") && Free(":") && Free("/boot/") && Free("/menu.ipxe")
  {
  }

  lemma DocumentedFilled(serverIP: string, port: string, own: string)
    ensures Put(Put(DOCUMENTED, map["server_ip" := serverIP, "http_port" := port]), map["mac" := own])
            == [Txt("http://"), Txt(serverIP), Txt(":"), Txt(port), Txt("/boot/"), Txt(own), Txt("/menu.ipxe")]
  {
    hide Put;
    var first := Put(DOCUMENTED, map["server_ip" := serverIP, "http_port" := port]);
    assert first == [Txt("http://"), Txt(serverIP), Txt(":"), Txt(port), Txt("/boot/"), Hole("mac"), Txt("/menu.ipxe")];
  }

  lemma SevenTexts(a: string, b: string, c: string, d: string, e: string, f: string, g: string)
    ensures Render([Txt(a), Txt(b), Txt(c), Txt(d), Txt(e), Txt(f), Txt(g)]) == a + b + c + d + e + f + g
  {
    hide Render;
    var last := [Txt(e), Txt(f), Txt(g)];
    FourTexts(a, b, c, d, last);
    FourTexts(e, f, g, "", []);
    EmptyText(last);
    assert [Txt(e), Txt(f), Txt(g), Txt("")] + [] == last + [Txt("")];
    assert [Txt(a), Txt(b), Txt(c), Txt(d)] + last == [Txt(a), Txt(b), Txt(c), Txt(d), Txt(e), Txt(f), Txt(g)];
    Flattened(a + b + c + d, e, f, g);
  }

  lemma {:induction false} EmptyText(t: seq<Piece>)
    ensures Render(t + [Txt("")]) == Render(t) && Render([]) == ""
  {
    if t == [] {
      assert [Txt("")][1..] == [] && t + [Txt("")] == [Txt("")];
    } else {
      assert (t + [Txt("")])[1..] == t[1..] + [Txt("")];
      EmptyText(t[1..]);
    }
  }

  lemma FourTexts(a: string, b: string, c: string, d: string, rest: seq<Piece>)
    ensures Render([Txt(a), Txt(b), Txt(c), Txt(d)] + rest) == a + b + c + d + Render(rest)
  {
    hide Render;
    OneText(d, rest);
    OneText(c, [Txt(d)] + rest);
    OneText(b, [Txt(c)] + ([Txt(d)] + rest));
    OneText(a, [Txt(b)] + ([Txt(c)] + ([Txt(d)] + rest)));
    assert [Txt(a)] + ([Txt(b)] + ([Txt(c)] + ([Txt(d)] + rest))) == [Txt(a), Txt(b), Txt(c), Txt(d)] + rest;
    assert a + (b + (c + (d + Render(rest)))) == a + b + c + d + Render(rest);
  }

  lemma OneText(a: string, rest: seq<Piece>)
    ensures Render([Txt(a)] + rest) == a + Render(rest)
  {
    assert ([Txt(a)] + rest)[1..] == rest;
  }

  lemma Flattened(a: string, e: string, f: string, g: string)
    ensures a + (e + f + g + "" + "") == a + e + f + g
  {
  }

  lemma ParsedBack(mac: MAC)
    ensures NetParseMAC(MacString(mac)) == if KnownLength(mac) then Some(mac) else None
  {
    if mac != [] {
      PairsBack(mac);
    }
  }
}
