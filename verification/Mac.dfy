/** MAC addresses as text: net.HardwareAddr.String, net.ParseMAC and the
    project's own ParseMAC with its wildcard. */
module Mac {
  import opened Text
  import opened Domain

  const HEX := "0123456789abcdef"

  function HexByte(b: Byte): string { [HEX[b / 16], HEX[b % 16]] }

  function MacString(mac: MAC): string {
    if mac == [] then ""
    else if |mac| == 1 then HexByte(mac[0])
    else HexByte(mac[0]) + ":" + MacString(mac[1..])
  }

  function HexValue(c: char): Option<nat> {
    if '0' <= c <= '9' then Some(c as int - '0' as int)
    else if 'a' <= c <= 'f' then Some(c as int - 'a' as int + 10)
    else if 'A' <= c <= 'F' then Some(c as int - 'A' as int + 10)
    else None
  }

  function BytePair(hi: char, lo: char): (r: Option<Byte>) {
    match (HexValue(hi), HexValue(lo))
    case (Some(h), Some(l)) => if 16 * h + l < 256 then Some(16 * h + l) else None
    case _ => None
  }

  /** Pairs of hex digits with a separator between them. */
  function ParsePairs(s: string, sep: char): Option<MAC> {
    if |s| < 2 then None
    else
      match BytePair(s[0], s[1])
      case None => None
      case Some(b) =>
        if |s| == 2 then Some([b])
        else if s[2] != sep then None
        else
          match ParsePairs(s[3..], sep)
          case None => None
          case Some(rest) => Some([b] + rest)
  }

  /** Groups of four hex digits with dots between them. */
  function ParseDots(s: string): Option<MAC> {
    if |s| < 4 then None
    else
      match (BytePair(s[0], s[1]), BytePair(s[2], s[3]))
      case (Some(a), Some(b)) =>
        if |s| == 4 then Some([a, b])
        else if s[4] != '.' then None
        else
          (match ParseDots(s[5..])
           case None => None
           case Some(rest) => Some([a, b] + rest))
      case _ => None
  }

  predicate KnownLength(mac: MAC) { |mac| in {6, 8, 20} }

  function NetParseMAC(s: string): (r: Option<MAC>)
    ensures r.Some? ==> KnownLength(r.value)
  {
    if |s| < 14 then None
    else
      var r := if s[2] == ':' || s[2] == '-' then ParsePairs(s, s[2])
               else if s[4] == '.' then ParseDots(s)
               else None;
      if r.Some? && KnownLength(r.value) then r else None
  }

  predicate IsSpace(c: char) { c in [' ', '\t', '\n', '\r', '\U{000b}', '\U{000c}'] }

  function TrimLeft(s: string): string {
    if s != "" && IsSpace(s[0]) then TrimLeft(s[1..]) else s
  }

  function TrimRight(s: string): string {
    if s != "" && IsSpace(s[|s| - 1]) then TrimRight(s[..|s| - 1]) else s
  }

  function Trimmed(s: string): string { TrimRight(TrimLeft(s)) }

  // ---------------------------------------------------------------- what is accepted

  /** Two hex digits, of either case, at this place. */
  predicate HexAt(s: string, i: int, b: Byte) {
    0 <= i && i + 1 < |s| && HexValue(s[i]) == Some(b / 16) && HexValue(s[i + 1]) == Some(b % 16)
  }

  predicate PairAt(s: string, mac: MAC, i: nat, seps: set<char>)
    requires i < |mac| && |s| == 3 * |mac| - 1
  {
    HexAt(s, 3 * i, mac[i]) && (i + 1 < |mac| ==> s[3 * i + 2] in seps)
  }

  /** Pairs of digits with one of these separators between any two. */
  ghost predicate InPairs(s: string, mac: MAC, seps: set<char>) {
    mac != [] && |s| == 3 * |mac| - 1 && forall i :: 0 <= i < |mac| ==> PairAt(s, mac, i, seps)
  }

  predicate GroupAt(s: string, mac: MAC, i: nat)
    requires 2 * i + 1 < |mac| && 2 * |s| == 5 * |mac| - 2
  {
    HexAt(s, 5 * i, mac[2 * i]) && HexAt(s, 5 * i + 2, mac[2 * i + 1]) && (2 * i + 2 < |mac| ==> s[5 * i + 4] == '.')
  }

  /** Groups of four digits with dots between them. */
  ghost predicate InGroups(s: string, mac: MAC) {
    mac != [] && |mac| % 2 == 0 && 2 * |s| == 5 * |mac| - 2 && forall i: nat :: 2 * i + 1 < |mac| ==> GroupAt(s, mac, i)
  }

  /** Dashes and colons may be mixed. */
  ghost predicate Spells(s: string, mac: MAC) {
    KnownLength(mac) && (InPairs(s, mac, {':', '-'}) || InGroups(s, mac))
  }

  lemma BytePairExactly(hi: char, lo: char, b: Byte)
    ensures BytePair(hi, lo) == Some(b) <==> HexValue(hi) == Some(b / 16) && HexValue(lo) == Some(b % 16)
  {
  }

  lemma PairsStep(s: string, mac: MAC, seps: set<char>)
    requires mac != [] && |s| == 3 * |mac| - 1
    ensures InPairs(s, mac, seps) <==>
            HexAt(s, 0, mac[0]) && (|mac| > 1 ==> s[2] in seps && InPairs(s[3..], mac[1..], seps))
  {
    assert PairAt(s, mac, 0, seps) <==> HexAt(s, 0, mac[0]) && (|mac| > 1 ==> s[2] in seps);
    if |mac| > 1 {
      forall i | 1 <= i < |mac| ensures PairAt(s, mac, i, seps) <==> PairAt(s[3..], mac[1..], i - 1, seps) {
        assert HexAt(s, 3 * i, mac[i]) <==> HexAt(s[3..], 3 * (i - 1), mac[1..][i - 1]);
      }
      if InPairs(s[3..], mac[1..], seps) && PairAt(s, mac, 0, seps) {
        forall i | 0 <= i < |mac| ensures PairAt(s, mac, i, seps) {
          assert i > 0 ==> PairAt(s[3..], mac[1..], i - 1, seps);
        }
      }
      if InPairs(s, mac, seps) {
        forall i | 0 <= i < |mac[1..]| ensures PairAt(s[3..], mac[1..], i, seps) {
          assert PairAt(s, mac, i + 1, seps);
        }
      }
    }
  }

  lemma {:induction false} ParsedPairsSize(s: string, sep: char)
    ensures ParsePairs(s, sep).Some? ==> ParsePairs(s, sep).value != [] && |s| == 3 * |ParsePairs(s, sep).value| - 1
    decreases |s|
  {
    if |s| > 2 {
      ParsedPairsSize(s[3..], sep);
    }
  }

  lemma {:induction false} PairsExactly(s: string, sep: char, mac: MAC)
    ensures ParsePairs(s, sep) == Some(mac) <==> InPairs(s, mac, {sep})
    decreases |s|
  {
    hide InPairs, BytePair, HexAt;
    PairsSize(s, mac, {sep});
    ParsedPairsSize(s, sep);
    if mac != [] && |s| == 3 * |mac| - 1 {
      BytePairExactly(s[0], s[1], mac[0]);
      HexAtStart(s, mac[0]);
      PairsStep(s, mac, {sep});
      if |s| > 2 {
        PairsExactly(s[3..], sep, mac[1..]);
        assert [mac[0]] + mac[1..] == mac;
      } else {
        assert mac == [mac[0]];
      }
    }
  }

  lemma HexAtStart(s: string, b: Byte)
    requires |s| >= 2
    ensures HexAt(s, 0, b) <==> HexValue(s[0]) == Some(b / 16) && HexValue(s[1]) == Some(b % 16)
  {
  }

  lemma PairsSize(s: string, mac: MAC, seps: set<char>)
    ensures InPairs(s, mac, seps) ==> mac != [] && |s| == 3 * |mac| - 1
  {
  }

  lemma HexShifts(s: string, k: nat, i: nat, b: Byte)
    requires k <= |s|
    ensures HexAt(s, k + i, b) <==> HexAt(s[k..], i, b)
  {
  }

  lemma GroupsStep(s: string, mac: MAC)
    requires |mac| >= 2 && |mac| % 2 == 0 && 2 * |s| == 5 * |mac| - 2
    ensures InGroups(s, mac) <==>
            && HexAt(s, 0, mac[0]) && HexAt(s, 2, mac[1])
            && (|mac| > 2 ==> s[4] == '.' && InGroups(s[5..], mac[2..]))
  {
    hide HexAt;
    assert GroupAt(s, mac, 0) <==> HexAt(s, 0, mac[0]) && HexAt(s, 2, mac[1]) && (|mac| > 2 ==> s[4] == '.');
    if |mac| > 2 {
      forall i: nat | 2 * i + 3 < |mac| ensures GroupAt(s, mac, i + 1) <==> GroupAt(s[5..], mac[2..], i) {
        HexShifts(s, 5, 5 * i, mac[2 * i + 2]);
        HexShifts(s, 5, 5 * i + 2, mac[2 * i + 3]);
        assert 5 * (i + 1) == 5 + 5 * i;
      }
      if InGroups(s[5..], mac[2..]) && GroupAt(s, mac, 0) {
        forall i: nat | 2 * i + 1 < |mac| ensures GroupAt(s, mac, i) {
          assert i > 0 ==> GroupAt(s[5..], mac[2..], i - 1);
        }
      }
      if InGroups(s, mac) {
        forall i: nat | 2 * i + 1 < |mac[2..]| ensures GroupAt(s[5..], mac[2..], i) {
          assert GroupAt(s, mac, i + 1);
        }
      }
    }
  }

  lemma GroupsSize(s: string, mac: MAC)
    ensures InGroups(s, mac) ==> |mac| >= 2 && |mac| % 2 == 0 && 2 * |s| == 5 * |mac| - 2
  {
  }

  /** A text and an address that fit together in dotted groups. */
  predicate DotsFit(s: string, mac: MAC) { |mac| >= 2 && |mac| % 2 == 0 && 2 * |s| == 5 * |mac| - 2 }

  lemma {:induction false} DotsSize(s: string)
    ensures ParseDots(s).Some? ==> DotsFit(s, ParseDots(s).value)
    decreases |s|
  {
    hide BytePair;
    if |s| > 4 && ParseDots(s).Some? {
      DotsSize(s[5..]);
      var rest := ParseDots(s[5..]).value;
      assert |ParseDots(s).value| == |rest| + 2;
    }
  }

  lemma {:induction false} DotsExactly(s: string, mac: MAC)
    ensures ParseDots(s) == Some(mac) <==> InGroups(s, mac)
    decreases |s|
  {
    hide InGroups, BytePair, HexAt;
    GroupsSize(s, mac);
    DotsSize(s);
    if |mac| >= 2 && |mac| % 2 == 0 && 2 * |s| == 5 * |mac| - 2 {
      BytePairExactly(s[0], s[1], mac[0]);
      BytePairExactly(s[2], s[3], mac[1]);
      TwoHexAtStart(s, mac[0], mac[1]);
      GroupsStep(s, mac);
      if |s| > 4 {
        DotsExactly(s[5..], mac[2..]);
        assert [mac[0], mac[1]] + mac[2..] == mac;
      } else {
        assert mac == [mac[0], mac[1]];
      }
    }
  }

  lemma TwoHexAtStart(s: string, a: Byte, b: Byte)
    requires |s| >= 4
    ensures HexAt(s, 0, a) <==> HexValue(s[0]) == Some(a / 16) && HexValue(s[1]) == Some(a % 16)
    ensures HexAt(s, 2, b) <==> HexValue(s[2]) == Some(b / 16) && HexValue(s[3]) == Some(b % 16)
  {
  }

  /** net.ParseMAC: one separator throughout, or dotted groups. */
  lemma NetParsesExactly(s: string, mac: MAC)
    ensures NetParseMAC(s) == Some(mac) <==>
            KnownLength(mac) && (InPairs(s, mac, {':'}) || InPairs(s, mac, {'-'}) || InGroups(s, mac))
  {
    hide ParsePairs, ParseDots;
    PairsExactly(s, ':', mac);
    PairsExactly(s, '-', mac);
    DotsExactly(s, mac);
    assert InPairs(s, mac, {':'}) && |mac| > 1 ==> s[2] == ':' by {
      if InPairs(s, mac, {':'}) && |mac| > 1 { assert PairAt(s, mac, 0, {':'}); }
    }
    assert InPairs(s, mac, {'-'}) && |mac| > 1 ==> s[2] == '-' by {
      if InPairs(s, mac, {'-'}) && |mac| > 1 { assert PairAt(s, mac, 0, {'-'}); }
    }
    assert InGroups(s, mac) && |mac| > 2 ==> s[4] == '.' && HexValue(s[2]).Some? by {
      if InGroups(s, mac) && |mac| > 2 { assert GroupAt(s, mac, 0); }
    }
  }

  lemma {:induction false} DashesReplaced(s: string)
    ensures var r := ReplaceAll(s, "-", ":");
            |r| == |s| && forall i :: 0 <= i < |s| ==> r[i] == if s[i] == '-' then ':' else s[i]
  {
    if s != "" {
      DashesReplaced(s[1..]);
      assert "-" <= s <==> s[0] == '-';
    }
  }

  lemma DashesMatter(s: string, r: string, mac: MAC)
    requires |r| == |s| && forall i :: 0 <= i < |s| ==> r[i] == if s[i] == '-' then ':' else s[i]
    ensures InPairs(r, mac, {':'}) <==> InPairs(s, mac, {':', '-'})
    ensures |mac| > 1 ==> !InPairs(r, mac, {'-'})
    ensures InGroups(r, mac) <==> InGroups(s, mac)
  {
    forall i, b ensures HexAt(r, i, b) <==> HexAt(s, i, b) {}
    hide HexAt;
    if mac != [] && |s| == 3 * |mac| - 1 {
      forall i | 0 <= i < |mac| ensures PairAt(r, mac, i, {':'}) <==> PairAt(s, mac, i, {':', '-'}) {}
      assert |mac| > 1 ==> !PairAt(r, mac, 0, {'-'});
      assert InPairs(r, mac, {':'}) ==> forall i :: 0 <= i < |mac| ==> PairAt(r, mac, i, {':'});
      assert InPairs(s, mac, {':', '-'}) ==> forall i :: 0 <= i < |mac| ==> PairAt(s, mac, i, {':', '-'});
    }
    if |mac| % 2 == 0 && 2 * |s| == 5 * |mac| - 2 {
      forall i: nat | 2 * i + 1 < |mac| ensures GroupAt(r, mac, i) <==> GroupAt(s, mac, i) {}
      assert InGroups(r, mac) ==> forall i: nat :: 2 * i + 1 < |mac| ==> GroupAt(r, mac, i);
      assert InGroups(s, mac) ==> forall i: nat :: 2 * i + 1 < |mac| ==> GroupAt(s, mac, i);
    }
  }

  /** What ParseMAC takes for an address: the trimmed text spells it, or is "*"
      for the wildcard. */
  ghost predicate Means(text: string, mac: MAC) {
    Spells(Trimmed(text), mac) || (Trimmed(text) == "*" && mac == WILDCARD)
  }

  lemma ParsesExactly(text: string, mac: MAC)
    ensures ParsedMAC(text) == Some(mac) <==> Means(text, mac)
  {
    hide NetParseMAC, InPairs, InGroups, TrimLeft, TrimRight;
    var s := Trimmed(text);
    var r := ReplaceAll(s, "-", ":");
    DashesReplaced(s);
    DashesMatter(s, r, mac);
    NetParsesExactly(r, mac);
    PairsSize(s, mac, {':', '-'});
    GroupsSize(s, mac);
  }

  /** The empty string and unreadable addresses are errors; "*" is the wildcard. */
  method ParseMAC(text: string) returns (r: Option<MAC>)
    ensures r == ParsedMAC(text)
    ensures forall mac :: r == Some(mac) <==> Means(text, mac)
  {
    hide Means;
    forall mac ensures ParsedMAC(text) == Some(mac) <==> Means(text, mac) {
      ParsesExactly(text, mac);
    }
    var s := TrimRight(TrimLeft(text));
    if s == "" {
      return None;
    }
    if s == "*" {
      return Some(WILDCARD);
    }
    s := ReplaceAll(s, "-", ":");
    r := NetParseMAC(s);
  }

  function ParsedMAC(text: string): (r: Option<MAC>)
    ensures r.Some? ==> KnownLength(r.value)
  {
    var s := TrimRight(TrimLeft(text));
    if s == "" then None
    else if s == "*" then Some(WILDCARD)
    else NetParseMAC(ReplaceAll(s, "-", ":"))
  }

  lemma HexDigitBack(d: nat)
    requires d < 16
    ensures HexValue(HEX[d]) == Some(d) && HEX[d] != '-' && !IsSpace(HEX[d])
  {
    assert HEX[0] == '0' && HEX[1] == '1' && HEX[2] == '2' && HEX[3] == '3' && HEX[4] == '4' && HEX[5] == '5';
    assert HEX[6] == '6' && HEX[7] == '7' && HEX[8] == '8' && HEX[9] == '9' && HEX[10] == 'a' && HEX[11] == 'b';
    assert HEX[12] == 'c' && HEX[13] == 'd' && HEX[14] == 'e' && HEX[15] == 'f';
  }

  lemma HexByteBack(b: Byte)
    ensures BytePair(HexByte(b)[0], HexByte(b)[1]) == Some(b) && '-' !in HexByte(b)
    ensures !IsSpace(HexByte(b)[0]) && !IsSpace(HexByte(b)[1])
  {
    HexDigitBack(b / 16);
    HexDigitBack(b % 16);
  }

  lemma {:induction false} PairsBack(mac: MAC)
    requires mac != []
    ensures var s := MacString(mac);
            && ParsePairs(s, ':') == Some(mac)
            && '-' !in s
            && |s| == 3 * |mac| - 1
            && !IsSpace(s[0])
            && !IsSpace(s[|s| - 1])
            && (|mac| > 1 ==> s[2] == ':')
  {
    hide IsSpace, BytePair, HexByte;
    HexByteBack(mac[0]);
    var s := MacString(mac);
    assert |HexByte(mac[0])| == 2 by { HexByteSize(mac[0]); }
    if |mac| == 1 {
      assert [mac[0]] == mac;
    } else {
      PairsBack(mac[1..]);
      assert s[3..] == MacString(mac[1..]);
      assert [mac[0]] + mac[1..] == mac;
    }
  }

  lemma HexByteSize(b: Byte)
    ensures |HexByte(b)| == 2
  {
  }

  /** Different addresses print differently. */
  lemma MacStringInjective(a: MAC, b: MAC)
    requires MacString(a) == MacString(b)
    ensures a == b
  {
    if a != [] {
      PairsBack(a);
    }
    if b != [] {
      PairsBack(b);
    }
  }

  /** Printing an address and parsing it gives it back, exactly when it has one
      of the lengths the parser knows. */
  lemma MacRoundTrip(mac: MAC)
    ensures ParsedMAC(MacString(mac)) == if KnownLength(mac) then Some(mac) else None
  {
    var s := MacString(mac);
    if mac != [] {
      PairsBack(mac);
      assert TrimRight(TrimLeft(s)) == s;
      FreeIsClear(s, "-");
      assert !Occurs("-", s);
      ReplaceAbsent(s, "-", ":");
    }
  }

  lemma WildcardParses()
    ensures ParsedMAC("*") == Some(WILDCARD)
  {
  }
}
