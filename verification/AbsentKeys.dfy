/** Keys that a configuration file may leave out, and what is loaded for them. */
module AbsentKeys {
  import opened Domain
  import opened Mac
  import opened MergeRules
  import opened SaveLoad
  import opened Registry
  import opened Serving
  import D = Directory

  // ---------------------------------------------------------------- spelled out

  /** A flag that is left out means true. */
  function Spelled(flag: Option<bool>): Option<bool> { if flag.None? then Some(true) else flag }

  function SpelledDHCP(r: RawDHCP): RawDHCP { r.(enabled := Spelled(r.enabled)) }
  function SpelledTFTP(r: RawTFTP): RawTFTP { r.(enabled := Spelled(r.enabled)) }
  function SpelledHTTP(r: RawHTTP): RawHTTP { r.(enabled := Spelled(r.enabled)) }
  function SpelledHealth(r: RawHealth): RawHealth {
    r.(enabled := Spelled(r.enabled), startupCheck := Spelled(r.startupCheck))
  }

  /** A menu without a type is one to install. */
  function SpelledMenu(r: RawMenu): RawMenu { if r.kind == "" then r.(kind := "install") else r }
  function SpelledClient(r: RawClient): RawClient { r.(enabled := Spelled(r.enabled)) }

  function Each<T, U>(o: Option<T>, f: T -> U): Option<U> { if o.None? then None else Some(f(o.value)) }

  /** The same file with every flag and every type written out. */
  function Explicit(raw: RawFile): (r: RawFile)
    ensures |r.menu| == |raw.menu| && |r.client| == |raw.client|
    ensures forall i :: 0 <= i < |raw.menu| ==> r.menu[i] == SpelledMenu(raw.menu[i])
    ensures forall i :: 0 <= i < |raw.client| ==> r.client[i] == SpelledClient(raw.client[i])
  {
    RawFile(raw.server, Each(raw.dhcpProxy, SpelledDHCP), Each(raw.tftp, SpelledTFTP), Each(raw.http, SpelledHTTP),
            Each(raw.health, SpelledHealth), raw.bootloader,
            seq(|raw.menu|, i requires 0 <= i < |raw.menu| => SpelledMenu(raw.menu[i])),
            seq(|raw.client|, i requires 0 <= i < |raw.client| => SpelledClient(raw.client[i])))
  }

  lemma MenuSpelled(r: RawMenu, path: string)
    ensures ConvertMenu(SpelledMenu(r), path) == ConvertMenu(r, path)
  {
    hide ParseMenuType;
    MenuTypeRoundTrip(Install);
  }

  lemma ClientSpelled(r: RawClient, path: string)
    ensures ConvertClient(SpelledClient(r), path) == ConvertClient(r, path)
  {
    hide ParsedMAC;
  }

  /** What is left out is as if it were written out: the file is readable or not
      all the same, and gives the same sections, menus and clients. */
  lemma AbsentIsExplicit(raw: RawFile, path: string)
    ensures Readable(Explicit(raw), path) <==> Readable(raw, path)
    ensures Readable(raw, path) ==> Parsed(Explicit(raw), path) == Parsed(raw, path)
  {
    hide ConvertMenu, ConvertClient, SpelledMenu, SpelledClient;
    var r := Explicit(raw);
    forall i | 0 <= i < |raw.menu| ensures ConvertMenu(r.menu[i], path) == ConvertMenu(raw.menu[i], path) {
      MenuSpelled(raw.menu[i], path);
    }
    forall i | 0 <= i < |raw.client| ensures ConvertClient(r.client[i], path) == ConvertClient(raw.client[i], path) {
      ClientSpelled(raw.client[i], path);
    }
    if Readable(raw, path) {
      assert Parsed(r, path).menus == Parsed(raw, path).menus && Parsed(r, path).clients == Parsed(raw, path).clients;
    }
  }

  // ---------------------------------------------------------------- what is written is read

  /** A flag that is given is taken as it is, and so are all other fields. */
  lemma GivenIsTaken(raw: RawFile, path: string)
    requires Readable(raw, path)
    ensures var f := Parsed(raw, path);
            && (raw.dhcpProxy.None? <==> f.dhcpProxy.None?) && (raw.tftp.None? <==> f.tftp.None?)
            && (raw.http.None? <==> f.http.None?) && (raw.health.None? <==> f.health.None?)
            && (raw.dhcpProxy.Some? && raw.dhcpProxy.value.enabled.Some? ==>
                  RawDHCP(Some(f.dhcpProxy.value.enabled), f.dhcpProxy.value.port, f.dhcpProxy.value.proxyPort,
                          f.dhcpProxy.value.vendorClass) == raw.dhcpProxy.value)
            && (raw.tftp.Some? && raw.tftp.value.enabled.Some? && raw.tftp.value.timeout.Some? ==>
                  RawTFTP(Some(f.tftp.value.enabled), f.tftp.value.port, f.tftp.value.blockSize,
                          Some(f.tftp.value.timeout), f.tftp.value.retries) == raw.tftp.value)
            && (raw.http.Some? && raw.http.value.enabled.Some? && raw.http.value.readTimeout.Some?
                && raw.http.value.tls.Some? ==>
                  RawHTTP(Some(f.http.value.enabled), f.http.value.port, Some(f.http.value.readTimeout),
                          Some(f.http.value.tls)) == raw.http.value)
            && (raw.health.Some? && raw.health.value.enabled.Some? && raw.health.value.interval.Some?
                && raw.health.value.startupCheck.Some? ==>
                  RawHealth(Some(f.health.value.enabled), Some(f.health.value.interval),
                            Some(f.health.value.startupCheck)) == raw.health.value)
            && (forall i :: 0 <= i < |raw.menu| && raw.menu[i].http.Some? && raw.menu[i].boot.Some? ==>
                  var m := f.menus[i];
                  RawMenu(m.name, m.labelText, m.description, raw.menu[i].kind, Some(m.http), Some(m.boot))
                  == raw.menu[i])
            && (forall i :: 0 <= i < |raw.client| && raw.client[i].enabled.Some? ==>
                  var c := f.clients[i];
                  RawClient(raw.client[i].mac, c.name, Some(c.enabled), c.menu, c.bootloader, c.vars) == raw.client[i])
  {
    hide ParsedMAC, ParseMenuType;
    forall i | 0 <= i < |raw.client| ensures ConvertClient(raw.client[i], path) == Some(Parsed(raw, path).clients[i]) {}
    forall i | 0 <= i < |raw.menu| ensures ConvertMenu(raw.menu[i], path) == Some(Parsed(raw, path).menus[i]) {}
  }

  // ---------------------------------------------------------------- who is turned away

  /** This client of a file says enabled = false. */
  predicate OffAt(raw: RawFile, path: string, i: int, c: Client)
    requires Readable(raw, path)
  {
    0 <= i < |raw.client| && Parsed(raw, path).clients[i] == c && raw.client[i].enabled == Some(false)
  }

  /** Some file's client says so. */
  ghost predicate SwitchedOff(raws: seq<RawFile>, paths: seq<string>, c: Client)
    requires |raws| == |paths| && forall k :: 0 <= k < |raws| ==> Readable(raws[k], paths[k])
  {
    exists k, i :: 0 <= k < |raws| && OffAt(raws[k], paths[k], i, c)
  }

  function ParsedAll(raws: seq<RawFile>, paths: seq<string>): (r: seq<FileResult>)
    requires |raws| == |paths| && forall k :: 0 <= k < |raws| ==> Readable(raws[k], paths[k])
    ensures |r| == |raws| && forall k :: 0 <= k < |raws| ==> r[k] == Parsed(raws[k], paths[k])
  {
    seq(|raws|, k requires 0 <= k < |raws| => Parsed(raws[k], paths[k]))
  }

  lemma EnabledUnlessOff(raw: RawFile, path: string, i: nat)
    requires Readable(raw, path) && i < |raw.client|
    ensures Parsed(raw, path).clients[i].enabled <==> raw.client[i].enabled != Some(false)
  {
    hide ParsedMAC;
    assert ConvertClient(raw.client[i], path) == Some(Parsed(raw, path).clients[i]);
  }

  /** A machine is turned away exactly when the client found for it was switched
      off in its file: leaving the key out never does that. */
  lemma ForbiddenExactly(raws: seq<RawFile>, paths: seq<string>, site: Site, serverIP: string, httpPort: int, mac: MAC)
    requires |raws| == |paths| && forall k :: 0 <= k < |raws| ==> Readable(raws[k], paths[k])
    requires site.clients == Merged(ParsedAll(raws, paths)).clients
    ensures ReplyTo(site, serverIP, httpPort, mac).Forbidden? <==>
              ClientFor(site, mac).Some? && SwitchedOff(raws, paths, ClientFor(site, mac).value)
  {
    hide Find, Index, LastWildcard, MacString, MenuIndex, Resolve, Flat, LastGiven, Parsed, Readable;
    var files := ParsedAll(raws, paths);
    if ClientFor(site, mac).Some? {
      var c := ClientFor(site, mac).value;
      FindsExactly(site.clients, mac);
      D.FlatMember(files, ClientsOf, c);
      var f :| f in files && c in ClientsOf(f);
      var k :| 0 <= k < |files| && files[k] == f;
      var i :| 0 <= i < |f.clients| && f.clients[i] == c;
      ParsedSizes(raws[k], paths[k]);
      EnabledUnlessOff(raws[k], paths[k], i);
      assert !c.enabled ==> OffAt(raws[k], paths[k], i, c);
      if SwitchedOff(raws, paths, c) {
        var l, j :| 0 <= l < |raws| && OffAt(raws[l], paths[l], j, c);
        EnabledUnlessOff(raws[l], paths[l], j);
      }
    }
  }

  lemma ParsedSizes(raw: RawFile, path: string)
    requires Readable(raw, path)
    ensures |Parsed(raw, path).clients| == |raw.client| && |Parsed(raw, path).menus| == |raw.menu|
  {
  }
}
