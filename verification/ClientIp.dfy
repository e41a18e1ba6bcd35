/** Client addresses as rate-limit keys: `expandIpv6` and `normalizeClientIp`, against the
    text forms of section 2.2 of RFC 4291. */
module ClientIp {
  import opened Decimal
  import opened Hex
  import opened Options
  import opened Texts

  // ---------------------------------------------------------------- the code

  /** `isIP(s) === 4`: four decimal octets without leading zeros. */
  predicate IsOctet(s: string) {
    && s != "" && AllDigits(s) && (|s| > 1 ==> s[0] != '0')
    && |s| <= 3 && Value(s) <= 255
  }

  predicate AreOctets(o: seq<string>) {
    |o| == 4 && IsOctet(o[0]) && IsOctet(o[1]) && IsOctet(o[2]) && IsOctet(o[3])
  }

  predicate IsIpv4(s: string) {
    AreOctets(Split(s, '.'))
  }

  /** The two hextets of a dotted quad. */
  function ParseIpv4Hextets(part: string): Option<seq<string>> {
    if IsIpv4(part) then Some(Printed(OctetHextets(Split(part, '.')))) else None
  }

  function OctetHextets(o: seq<string>): seq<nat>
    requires AreOctets(o)
  {
    [Value(o[0]) * 256 + Value(o[1]), Value(o[2]) * 256 + Value(o[3])]
  }

  function FlatPart(part: string): seq<string> {
    var hextets := ParseIpv4Hextets(part);
    if hextets.Some? then hextets.value else [part]
  }

  function FlatParts(parts: seq<string>): seq<string> {
    if parts == [] then [] else FlatPart(parts[0]) + FlatParts(parts[1..])
  }

  function ExpandParts(value: string): seq<string> {
    if value == "" then [] else FlatParts(Split(value, ':'))
  }

  /** `Number.parseInt(part || "0", 16).toString(16)`; no leading digit prints as NaN. */
  function Canonical(part: string): string {
    var text := if part == "" then "0" else part;
    if HexPrefix(text) == "" then "NaN" else ToHex(HexValue(HexPrefix(text)))
  }

  function CanonicalAll(parts: seq<string>): seq<string> {
    seq(|parts|, i requires 0 <= i < |parts| => Canonical(parts[i]))
  }

  function ZeroGroups(n: nat): seq<string> {
    seq(n, _ => "0")
  }

  function ExpandIpv6(address: string): (hextets: Option<seq<string>>)
    ensures hextets.Some? ==> |hextets.value| == 8
  {
    ExpandHalves(SplitGap(Lower(Before(address, '%'))))
  }

  function ExpandHalves(halves: seq<string>): (hextets: Option<seq<string>>)
    requires halves != []
    ensures hextets.Some? ==> |hextets.value| == 8
  {
    if |halves| > 2 then None else
    var left := ExpandParts(halves[0]);
    var right := if |halves| == 2 then ExpandParts(halves[1]) else [];
    var missing := 8 - |left| - |right|;
    if missing < 0 || (|halves| == 1 && missing != 0) then None
    else Some(CanonicalAll(left + ZeroGroups(missing) + right))
  }

  // ---------------------------------------------------------------- the standard's text forms

  /** A group of the text form: one to four hexadecimal digits, or a dotted quad. */
  datatype Group = Digits(text: string) | Quad(a: nat, b: nat, c: nat, d: nat)
  {
    ghost predicate Legal() {
      if Digits? then 1 <= |text| <= 4 && AllHex(text)
      else a < 256 && b < 256 && c < 256 && d < 256
    }

    function Text(): string {
      if Digits? then text else Join(Octets(), '.')
    }

    function Octets(): (os: seq<string>)
      requires Quad?
    {
      [ToText(a), ToText(b), ToText(c), ToText(d)]
    }

    ghost function Hextets(): seq<nat>
      requires Legal()
    {
      if Digits? then [HexValue(text)] else [a * 256 + b, c * 256 + d]
    }
  }

  ghost predicate AllLegal(gs: seq<Group>) {
    forall i :: 0 <= i < |gs| ==> gs[i].Legal()
  }

  /** A dotted quad stands only at the end. */
  ghost predicate QuadLast(gs: seq<Group>) {
    forall i :: 0 <= i < |gs| - 1 ==> gs[i].Digits?
  }

  function GroupTexts(gs: seq<Group>): (ts: seq<string>)
    ensures |ts| == |gs|
  {
    seq(|gs|, i requires 0 <= i < |gs| => gs[i].Text())
  }

  ghost function HextetsOf(gs: seq<Group>): seq<nat>
    requires AllLegal(gs)
  {
    if gs == [] then [] else gs[0].Hextets() + HextetsOf(gs[1..])
  }

  function ZeroHextets(n: nat): (z: seq<nat>)
    ensures |z| == n
  {
    seq(n, _ => 0)
  }

  /** Section 2.2: all eight groups, or `::` once for at least one group of zeros. */
  datatype Spelling = Full(groups: seq<Group>) | Gap(left: seq<Group>, right: seq<Group>)
  {
    ghost predicate Legal() {
      match this
      case Full(gs) => AllLegal(gs) && QuadLast(gs) && |HextetsOf(gs)| == 8
      case Gap(l, r) =>
        && AllLegal(l) && AllLegal(r) && QuadLast(r) && (forall i :: 0 <= i < |l| ==> l[i].Digits?)
        && |HextetsOf(l)| + |HextetsOf(r)| <= 7
    }

    function Text(): string {
      match this
      case Full(gs) => Join(GroupTexts(gs), ':')
      case Gap(l, r) => Join(GroupTexts(l), ':') + "::" + Join(GroupTexts(r), ':')
    }

    /** The address that is meant: eight hextets. */
    ghost function Address(): (a: seq<nat>)
      requires Legal()
      ensures |a| == 8
    {
      match this
      case Full(gs) => HextetsOf(gs)
      case Gap(l, r) => HextetsOf(l) + ZeroHextets(8 - |HextetsOf(l)| - |HextetsOf(r)|) + HextetsOf(r)
    }
  }

  /** The eight hextets in their shortest lower-case form. */
  function Printed(address: seq<nat>): seq<string> {
    seq(|address|, i requires 0 <= i < |address| => ToHex(address[i]))
  }

  // ---------------------------------------------------------------- the key

  /** `isIP(s) === 6`, for a text without a zone. */
  ghost predicate IsIpv6(s: string) {
    exists sp: Spelling :: sp.Legal() && sp.Text() == s
  }

  /** The text that the pattern `^::ffff:(quad)$` accepts, with a true quad. */
  predicate IsDottedMapped(s: string) {
    |s| > 7 && s[..7] == "::ffff:" && IsIpv4(s[7..])
  }

  function Unwrapped(s: string): string {
    if s != "" && s[0] == '[' && ']' in s then s[1..IndexOf(s, ']')] else s
  }

  /** What is left to look at: no brackets, no zone, lower case. */
  function Plain(forwarded: string): string {
    Lower(Before(Unwrapped(forwarded), '%'))
  }

  ghost function KeyOf(forwarded: string): string {
    var plain := Plain(forwarded);
    if IsIpv4(plain) then plain
    else if IsDottedMapped(plain) then plain[7..]
    else if !IsIpv6(plain) then (if forwarded == "" then "anonymous" else forwarded)
    else
      var hextets := ExpandIpv6(plain);
      if hextets.None? then plain else Join(hextets.value[..4], ':') + "::/64"
  }

  ghost function NormalizeClientIp(ip: Option<string>): string {
    if ip.None? || ip.value == "" then "anonymous" else KeyOf(Trim(Before(ip.value, ',')))
  }

  // ---------------------------------------------------------------- groups

  ghost predicate OctetIs(t: string, n: nat) {
    IsOctet(t) && Value(t) == n && '.' !in t && ':' !in t
  }

  lemma {:induction false} OctetText(n: nat)
    requires n < 256
    ensures OctetIs(ToText(n), n)
  {
    ValueOfText(n);
    assert Pow10(3) == 1000;
    TextLength(n, 3);
    NoLeadingZero(n);
  }

  lemma {:induction false} NoLeadingZero(n: nat)
    ensures |ToText(n)| > 1 ==> ToText(n)[0] != '0'
    ensures n > 0 ==> ToText(n)[0] != '0'
  {
    if n >= 10 {
      NoLeadingZero(n / 10);
    }
  }

  lemma {:induction false} OctetsJoined(o: seq<string>, a: nat, b: nat, c: nat, d: nat)
    requires |o| == 4 && OctetIs(o[0], a) && OctetIs(o[1], b) && OctetIs(o[2], c) && OctetIs(o[3], d)
    ensures IsIpv4(Join(o, '.')) && ':' !in Join(o, '.') && Join(o, '.') != ""
    ensures ParseIpv4Hextets(Join(o, '.')) == Some(Printed([a * 256 + b, c * 256 + d]))
  {
    hide Join, Value, Printed, IsOctet;
    SplitOfJoin(o, '.');
    JoinFree(o, '.', ':');
  }

  lemma {:induction false} QuadText(g: Group)
    requires g.Quad? && g.Legal()
    ensures IsIpv4(g.Text()) && ':' !in g.Text() && g.Text() != ""
    ensures ParseIpv4Hextets(g.Text()) == Some(Printed(g.Hextets()))
  {
    OctetText(g.a);
    OctetText(g.b);
    OctetText(g.c);
    OctetText(g.d);
    OctetsJoined(g.Octets(), g.a, g.b, g.c, g.d);
  }

  /** A dotted quad holds digits and dots only. */
  lemma {:induction false} Ipv4Chars(s: string)
    requires IsIpv4(s)
    ensures AllChars(c => c == '.' || IsDigit(c), s)
  {
    SplitCovers(s, '.', IsDigit);
  }

  lemma {:induction false} DigitsAreNotIpv4(s: string)
    requires AllHex(s)
    ensures !IsIpv4(s)
  {
    assert '.' !in s;
    assert Split(s, '.') == [s];
  }

  lemma {:induction false} GroupText(g: Group)
    requires g.Legal()
    ensures g.Text() != "" && ':' !in g.Text()
  {
    if g.Quad? {
      QuadText(g);
    }
  }

  lemma {:induction false} CanonicalAppend(a: seq<string>, b: seq<string>)
    ensures CanonicalAll(a + b) == CanonicalAll(a) + CanonicalAll(b)
  {
  }

  lemma {:induction false} PrintedAppend(a: seq<nat>, b: seq<nat>)
    ensures Printed(a + b) == Printed(a) + Printed(b)
  {
  }

  lemma {:induction false} CanonicalOfPrinted(hextets: seq<nat>)
    ensures CanonicalAll(Printed(hextets)) == Printed(hextets)
  {
    forall i | 0 <= i < |hextets| ensures Canonical(ToHex(hextets[i])) == ToHex(hextets[i]) {
      ValueOfHex(hextets[i]);
    }
  }

  lemma {:induction false} FlatGroup(g: Group)
    requires g.Legal()
    ensures CanonicalAll(FlatPart(g.Text())) == Printed(g.Hextets())
  {
    if g.Quad? {
      QuadText(g);
      CanonicalOfPrinted(g.Hextets());
    } else {
      DigitsAreNotIpv4(g.text);
    }
  }

  /** Flattening the texts of the groups and normalising gives their hextets. */
  lemma {:induction false} FlatGroups(gs: seq<Group>)
    requires AllLegal(gs)
    ensures CanonicalAll(FlatParts(GroupTexts(gs))) == Printed(HextetsOf(gs))
  {
    if gs != [] {
      var g, rest := gs[0], gs[1..];
      assert GroupTexts(gs)[0] == g.Text() && GroupTexts(gs)[1..] == GroupTexts(rest);
      FlatGroup(g);
      FlatGroups(rest);
      CanonicalAppend(FlatPart(g.Text()), FlatParts(GroupTexts(rest)));
      PrintedAppend(g.Hextets(), HextetsOf(rest));
    }
  }

  lemma {:induction false} ExpandGroups(gs: seq<Group>)
    requires AllLegal(gs)
    ensures NoGap(Join(GroupTexts(gs), ':')) && (gs == [] <==> Join(GroupTexts(gs), ':') == "")
    ensures gs != [] ==> Join(GroupTexts(gs), ':')[|Join(GroupTexts(gs), ':')| - 1] != ':'
    ensures CanonicalAll(ExpandParts(Join(GroupTexts(gs), ':'))) == Printed(HextetsOf(gs))
  {
    var parts := GroupTexts(gs);
    forall i | 0 <= i < |parts| ensures parts[i] != "" && ':' !in parts[i] {
      GroupText(gs[i]);
    }
    JoinHasNoGap(parts);
    FlatGroups(gs);
    if gs != [] {
      SplitOfJoin(parts, ':');
    }
  }

  // ---------------------------------------------------------------- case

  ghost function LowerGroup(g: Group): Group {
    if g.Digits? then Digits(Lower(g.text)) else g
  }

  ghost function LowerGroups(gs: seq<Group>): (r: seq<Group>)
    ensures |r| == |gs|
  {
    seq(|gs|, i requires 0 <= i < |gs| => LowerGroup(gs[i]))
  }

  ghost function LowerSpelling(sp: Spelling): Spelling {
    match sp
    case Full(gs) => Full(LowerGroups(gs))
    case Gap(l, r) => Gap(LowerGroups(l), LowerGroups(r))
  }

  lemma {:induction false} LowerKeepsValue(s: string)
    requires AllHex(s)
    ensures AllHex(Lower(s)) && HexValue(Lower(s)) == HexValue(s)
  {
    if s != "" {
      LowerKeepsValue(s[..|s| - 1]);
      assert Lower(s)[..|s| - 1] == Lower(s[..|s| - 1]);
    }
  }

  lemma {:induction false} LowerOfPlain(s: string)
    requires forall i :: 0 <= i < |s| ==> !('A' <= s[i] <= 'Z')
    ensures Lower(s) == s
  {
  }

  lemma {:induction false} LowerOfGroup(g: Group)
    requires g.Legal()
    ensures LowerGroup(g).Legal() && LowerGroup(g).Hextets() == g.Hextets()
    ensures Lower(g.Text()) == LowerGroup(g).Text()
  {
    if g.Digits? {
      LowerKeepsValue(g.text);
    } else {
      QuadText(g);
      Ipv4Chars(g.Text());
      LowerOfPlain(g.Text());
    }
  }

  lemma {:induction false} LowerKeepsHextets(gs: seq<Group>)
    requires AllLegal(gs)
    ensures AllLegal(LowerGroups(gs)) && HextetsOf(LowerGroups(gs)) == HextetsOf(gs)
  {
    if gs != [] {
      LowerOfGroup(gs[0]);
      LowerKeepsHextets(gs[1..]);
      assert LowerGroups(gs)[1..] == LowerGroups(gs[1..]);
    }
  }

  lemma {:induction false} LowerOfGroups(gs: seq<Group>)
    requires AllLegal(gs)
    ensures AllLegal(LowerGroups(gs)) && HextetsOf(LowerGroups(gs)) == HextetsOf(gs)
    ensures Lower(Join(GroupTexts(gs), ':')) == Join(GroupTexts(LowerGroups(gs)), ':')
  {
    hide Lower, Join, LowerGroup;
    LowerKeepsHextets(gs);
    LowerOfJoin(GroupTexts(gs));
    forall i | 0 <= i < |gs| ensures Lower(gs[i].Text()) == LowerGroup(gs[i]).Text() {
      LowerOfGroup(gs[i]);
    }
    assert GroupTexts(LowerGroups(gs)) == LowerAll(GroupTexts(gs));
  }

  lemma {:induction false} LowerOfGap(left: string, right: string)
    ensures Lower(left + "::" + right) == Lower(left) + "::" + Lower(right)
  {
  }

  lemma {:induction false} LowerOfSpelling(sp: Spelling)
    requires sp.Legal()
    ensures LowerSpelling(sp).Legal() && LowerSpelling(sp).Address() == sp.Address()
    ensures Lower(sp.Text()) == LowerSpelling(sp).Text()
  {
    hide Join, Lower, HextetsOf;
    match sp
    case Full(gs) => LowerOfGroups(gs);
    case Gap(l, r) =>
      LowerOfGroups(l);
      LowerOfGroups(r);
      LowerOfGap(Join(GroupTexts(l), ':'), Join(GroupTexts(r), ':'));
  }

  // ---------------------------------------------------------------- every spelling expands to its address

  lemma {:induction false} CanonicalOfZeros(n: nat)
    ensures CanonicalAll(ZeroGroups(n)) == Printed(ZeroHextets(n))
  {
    assert HexPrefix("0") == "0" && "0"[..0] == "" && HexValue("0") == 0;
  }

  lemma {:induction false} ExpandFull(text: string, hextets: seq<nat>)
    requires CanonicalAll(ExpandParts(text)) == Printed(hextets) && |hextets| == 8
    ensures ExpandHalves([text]) == Some(Printed(hextets))
  {
    var parts := ExpandParts(text);
    assert |CanonicalAll(parts)| == |parts|;
    assert parts + ZeroGroups(0) + [] == parts;
  }

  lemma {:induction false} ExpandGap(left: string, right: string, l: seq<nat>, r: seq<nat>)
    requires CanonicalAll(ExpandParts(left)) == Printed(l) && CanonicalAll(ExpandParts(right)) == Printed(r)
    requires |l| + |r| <= 7
    ensures ExpandHalves([left, right]) == Some(Printed(l + ZeroHextets(8 - |l| - |r|) + r))
  {
    GapGroups(ExpandParts(left), ExpandParts(right), l, r);
  }

  lemma {:induction false} ExpandFullGroups(gs: seq<Group>)
    requires AllLegal(gs) && |HextetsOf(gs)| == 8
    ensures ExpandHalves(SplitGap(Join(GroupTexts(gs), ':'))) == Some(Printed(HextetsOf(gs)))
  {
    ExpandGroups(gs);
    NoGapNoSplit(Join(GroupTexts(gs), ':'));
    ExpandFull(Join(GroupTexts(gs), ':'), HextetsOf(gs));
  }

  lemma {:induction false} ExpandGapGroups(l: seq<Group>, r: seq<Group>)
    requires AllLegal(l) && AllLegal(r)
    requires |HextetsOf(l)| + |HextetsOf(r)| <= 7
    ensures ExpandHalves(SplitGap(Join(GroupTexts(l), ':') + "::" + Join(GroupTexts(r), ':')))
         == Some(Printed(HextetsOf(l) + ZeroHextets(8 - |HextetsOf(l)| - |HextetsOf(r)|) + HextetsOf(r)))
  {
    hide ExpandHalves, SplitGap, Printed, HextetsOf, Join;
    ExpandGroups(l);
    ExpandGroups(r);
    var left, right := Join(GroupTexts(l), ':'), Join(GroupTexts(r), ':');
    SplitGapInTwo(left, right);
    ExpandGap(left, right, HextetsOf(l), HextetsOf(r));
  }

  /** What a text without zone and upper case expands to. */
  lemma {:induction false} ExpandLower(sp: Spelling)
    requires sp.Legal()
    ensures ExpandHalves(SplitGap(sp.Text())) == Some(Printed(sp.Address()))
  {
    hide ExpandHalves, SplitGap, Printed, HextetsOf, Join;
    match sp
    case Full(gs) => ExpandFullGroups(gs);
    case Gap(l, r) => ExpandGapGroups(l, r);
  }

  lemma {:induction false} GapGroups(left: seq<string>, right: seq<string>, l: seq<nat>, r: seq<nat>)
    requires CanonicalAll(left) == Printed(l) && CanonicalAll(right) == Printed(r)
    requires |l| + |r| <= 7
    ensures |left| == |l| && |right| == |r|
    ensures CanonicalAll(left + ZeroGroups(8 - |l| - |r|) + right)
         == Printed(l + ZeroHextets(8 - |l| - |r|) + r)
  {
    assert |CanonicalAll(left)| == |left| && |CanonicalAll(right)| == |right|;
    var n := 8 - |l| - |r|;
    var none := ZeroHextets(n);
    CanonicalOfZeros(n);
    CanonicalAppend(left + ZeroGroups(n), right);
    CanonicalAppend(left, ZeroGroups(n));
    PrintedAppend(l + none, r);
    PrintedAppend(l, none);
  }

  // ---------------------------------------------------------------- characters of a spelling

  predicate IsSpellingChar(c: char) { IsHex(c) || c == ':' || c == '.' }

  lemma {:induction false} GroupsChars(gs: seq<Group>)
    requires AllLegal(gs)
    ensures AllChars(IsSpellingChar, Join(GroupTexts(gs), ':'))
  {
    forall i | 0 <= i < |gs| ensures AllChars(IsSpellingChar, GroupTexts(gs)[i]) {
      if gs[i].Quad? {
        QuadText(gs[i]);
        Ipv4Chars(gs[i].Text());
      }
    }
    JoinChars(GroupTexts(gs), ':', IsSpellingChar);
  }

  lemma {:induction false} SpellingChars(sp: Spelling)
    requires sp.Legal()
    ensures AllChars(IsSpellingChar, sp.Text())
  {
    match sp
    case Full(gs) => GroupsChars(gs);
    case Gap(l, r) =>
      GroupsChars(l);
      GroupsChars(r);
  }

  lemma {:induction false} FewGroups(gs: seq<Group>)
    requires AllLegal(gs)
    ensures |HextetsOf(gs)| <= 2 * |gs|
  {
    if gs != [] {
      FewGroups(gs[1..]);
    }
  }

  lemma {:induction false} HasColon(sp: Spelling)
    requires sp.Legal()
    ensures ':' in sp.Text()
  {
    match sp
    case Full(gs) =>
      FewGroups(gs);
      var texts := GroupTexts(gs);
      assert sp.Text() == texts[0] + [':'] + Join(texts[1..], ':');
    case Gap(l, r) =>
      var left := Join(GroupTexts(l), ':');
      assert sp.Text()[|left|] == ':';
  }

  /** Any spelling, in any case and with any zone, expands to the address it means. */
  lemma {:induction false} EverySpellingExpands(sp: Spelling, zone: string)
    requires sp.Legal() && (zone == "" || zone[0] == '%')
    ensures ExpandIpv6(sp.Text() + zone) == Some(Printed(sp.Address()))
    ensures ExpandIpv6(Lower(sp.Text())) == Some(Printed(sp.Address()))
  {
    var low := LowerSpelling(sp);
    SpellingChars(sp);
    LowerOfSpelling(sp);
    SpellingChars(low);
    BeforeZone(sp.Text(), zone);
    LowerTwice(sp.Text());
    assert low.Text() == low.Text() + "";
    BeforeZone(low.Text(), "");
    ExpandLower(low);
  }

  lemma {:induction false} BeforeZone(s: string, zone: string)
    requires '%' !in s && (zone == "" || zone[0] == '%')
    ensures Before(s + zone, '%') == s
  {
    if zone == "" {
      assert s + zone == s;
    } else {
      assert s + zone == s + ['%'] + zone[1..];
      IndexAfter(s, '%', zone[1..]);
    }
  }

  lemma {:induction false} LowerTwice(s: string)
    ensures Lower(Lower(s)) == Lower(s)
  {
  }

  // ---------------------------------------------------------------- headers

  ghost predicate Blank(s: string) { AllChars(IsSpace, s) }

  predicate IsZoneChar(c: char) { !IsSpace(c) && c != ',' && c != ']' }

  /** An address of either family. */
  datatype Host = V4(quad: Group) | V6(sp: Spelling)
  {
    ghost predicate Legal() {
      match this
      case V4(g) => g.Quad? && g.Legal()
      case V6(sp) => sp.Legal()
    }

    function Text(): string {
      match this
      case V4(g) => g.Text()
      case V6(sp) => sp.Text()
    }
  }

  /** A forwarded address as proxies write it: blanks around it, brackets and a port, a zone,
      further hops after a comma. */
  datatype Header = Header(pre: string, bracketed: bool, host: Host, zone: string, port: string, post: string, hops: string)
  {
    ghost predicate Legal() {
      && Blank(pre) && Blank(post) && host.Legal()
      && (zone == "" || zone[0] == '%') && AllChars(IsZoneChar, zone)
      && AllChars(IsZoneChar, port) && (!bracketed ==> port == "")
      && (hops == "" || hops[0] == ',')
    }

    function Core(): string {
      if bracketed then "[" + host.Text() + zone + "]" + port else host.Text() + zone
    }

    function Text(): string { pre + Core() + post + hops }
  }

  predicate IsCoreChar(c: char) { !IsSpace(c) && c != ',' }

  lemma {:induction false} UnwrapBrackets(inner: string, port: string)
    requires AllChars(IsZoneChar, inner) && AllChars(IsZoneChar, port)
    ensures Unwrapped("[" + inner + "]" + port) == inner
    ensures AllChars(IsCoreChar, "[" + inner + "]" + port)
  {
    var core := "[" + inner + "]" + port;
    assert core == ("[" + inner) + [']'] + port;
    IndexAfter("[" + inner, ']', port);
    assert core[1..|inner| + 1] == inner;
  }

  lemma {:induction false} HostChars(host: Host)
    requires host.Legal()
    ensures host.Text() != "" && AllChars(IsSpellingChar, host.Text())
  {
    match host
    case V4(g) =>
      QuadText(g);
      Ipv4Chars(g.Text());
    case V6(sp) =>
      SpellingChars(sp);
      HasColon(sp);
  }

  lemma {:induction false} InnerChars(host: Host, zone: string)
    requires host.Legal() && AllChars(IsZoneChar, zone)
    ensures host.Text() + zone != "" && (host.Text() + zone)[0] != '[' && AllChars(IsZoneChar, host.Text() + zone)
  {
    hide Join;
    HostChars(host);
    CharsAreZoneChars(host.Text());
  }

  lemma {:induction false} CharsAreZoneChars(s: string)
    requires AllChars(IsSpellingChar, s)
    ensures AllChars(IsZoneChar, s) && (s != "" ==> s[0] != '[')
  {
    forall i | 0 <= i < |s| ensures IsZoneChar(s[i]) {
      assert IsSpellingChar(s[i]);
    }
  }

  lemma {:induction false} UnwrapBare(s: string)
    requires s != "" && s[0] != '['
    ensures Unwrapped(s) == s
  {
  }

  lemma {:induction false} CoreChars(h: Header)
    requires h.Legal()
    ensures h.Core() != "" && AllChars(IsCoreChar, h.Core())
    ensures Unwrapped(h.Core()) == h.host.Text() + h.zone
  {
    hide Unwrapped, Join, IsSpace, IndexOf;
    InnerChars(h.host, h.zone);
    if h.bracketed {
      UnwrapBrackets(h.host.Text() + h.zone, h.port);
      assert h.Core() == "[" + (h.host.Text() + h.zone) + "]" + h.port;
    } else {
      UnwrapBare(h.Core());
    }
  }

  lemma {:induction false} NoComma(pre: string, core: string, post: string)
    requires Blank(pre) && AllChars(IsCoreChar, core) && Blank(post)
    ensures ',' !in pre + core + post
    ensures core != "" ==> !IsSpace(core[0]) && !IsSpace(core[|core| - 1])
  {
  }

  /** The trimmed first hop. */
  lemma {:induction false} FirstHop(h: Header)
    requires h.Legal()
    ensures Trim(Before(h.Text(), ',')) == h.Core()
  {
    hide IsSpace, Trim, Join, IndexOf;
    CoreChars(h);
    var first := h.pre + h.Core() + h.post;
    NoComma(h.pre, h.Core(), h.post);
    if h.hops == "" {
      assert first + h.hops == first;
    } else {
      assert first + h.hops == first + [','] + h.hops[1..];
      IndexAfter(first, ',', h.hops[1..]);
    }
    assert Before(h.Text(), ',') == first;
    TrimAround(h.pre, h.Core(), h.post);
  }

  /** The spelling is caught by the pattern for IPv4-mapped addresses. */
  ghost predicate Dotted(sp: Spelling) { IsDottedMapped(Lower(sp.Text())) }

  /** What the key is, in terms of the address. */
  ghost function SpellingKey(sp: Spelling): string
    requires sp.Legal()
  {
    if Dotted(sp) then Lower(sp.Text())[7..] else Join(Printed(sp.Address()[..4]), ':') + "::/64"
  }

  lemma {:induction false} KeyOfSpelling(forwarded: string, sp: Spelling)
    requires sp.Legal() && Plain(forwarded) == Lower(sp.Text())
    ensures KeyOf(forwarded) == SpellingKey(sp)
  {
    hide Join, ExpandIpv6, IsHex;
    var plain := Lower(sp.Text());
    LowerOfSpelling(sp);
    assert IsIpv6(plain);
    HasColon(LowerSpelling(sp));
    if IsIpv4(plain) {
      Ipv4Chars(plain);
    }
    EverySpellingExpands(sp, "");
    assert Printed(sp.Address())[..4] == Printed(sp.Address()[..4]);
  }

  ghost function HostKey(host: Host): string
    requires host.Legal()
  {
    match host
    case V4(g) => g.Text()
    case V6(sp) => SpellingKey(sp)
  }

  lemma {:induction false} KeyOfHost(forwarded: string, host: Host)
    requires host.Legal() && Plain(forwarded) == Lower(host.Text())
    ensures KeyOf(forwarded) == HostKey(host)
  {
    hide Lower, Plain, SpellingKey, Join;
    match host
    case V4(g) =>
      QuadText(g);
      Ipv4Chars(g.Text());
      LowerOfPlain(g.Text());
    case V6(sp) =>
      KeyOfSpelling(forwarded, sp);
  }

  /** The key of a header is a function of the address text it carries. */
  lemma {:induction false} KeyOfHeader(h: Header)
    requires h.Legal()
    ensures NormalizeClientIp(Some(h.Text())) == HostKey(h.host)
  {
    hide KeyOf, HostKey, Trim, Join;
    CoreChars(h);
    FirstHop(h);
    HostChars(h.host);
    assert h.Core() != "" && h.Text() != "";
    BeforeZone(h.host.Text(), h.zone);
    KeyOfHost(h.Core(), h.host);
  }

  // ---------------------------------------------------------------- IPv4-mapped addresses

  ghost predicate Mapped(address: seq<nat>) {
    |address| == 8 && address[..6] == [0, 0, 0, 0, 0, 0xffff]
  }

  ghost function MappedSpelling(g: Group): Spelling { Gap([], [Digits("ffff"), g]) }

  lemma {:induction false} JoinTwo(a: string, b: string)
    ensures Join([a, b], ':') == a + ":" + b
  {
    assert [a, b][1..] == [b];
  }

  lemma {:induction false} NoGroups()
    ensures Join(GroupTexts([]), ':') == ""
  {
  }

  lemma {:induction false} MappedText(g: Group)
    requires g.Legal() && g.Quad?
    ensures MappedSpelling(g).Legal() && MappedSpelling(g).Text() == "::ffff:" + g.Text()
    ensures MappedSpelling(g).Address() == [0, 0, 0, 0, 0, 0xffff] + g.Hextets()
  {
    hide Join, IsHex, HexValue, ToText;
    var gs := [Digits("ffff"), g];
    FfffIsHex();
    assert gs[1..] == [g];
    assert HextetsOf([g]) == g.Hextets() + HextetsOf([]);
    assert HextetsOf(gs) == [0xffff] + g.Hextets();
    assert GroupTexts(gs) == ["ffff", g.Text()];
    JoinTwo("ffff", g.Text());
    NoGroups();
  }

  lemma {:induction false} FfffIsHex()
    ensures AllHex("ffff") && HexValue("ffff") == 0xffff
  {
    assert "ffff"[..3] == "fff" && "fff"[..2] == "ff" && "ff"[..1] == "f" && "f"[..0] == "";
  }

  /** Every accepted dotted quad is the text of a quad group. */
  lemma {:induction false} QuadOf(s: string) returns (g: Group)
    requires IsIpv4(s)
    ensures g.Quad? && g.Legal() && g.Text() == s
  {
    hide Value, ToText, Split;
    var o := Split(s, '.');
    g := Quad(Value(o[0]), Value(o[1]), Value(o[2]), Value(o[3]));
    TextOfValue(o[0]);
    TextOfValue(o[1]);
    TextOfValue(o[2]);
    TextOfValue(o[3]);
    JoinOfSplit(s, '.');
    assert o == [ToText(g.a), ToText(g.b), ToText(g.c), ToText(g.d)];
  }

  lemma {:induction false} PrintedIsInjective(a: seq<nat>, b: seq<nat>)
    requires Printed(a) == Printed(b)
    ensures a == b
  {
    assert |Printed(a)| == |a| && |Printed(b)| == |b|;
    forall i | 0 <= i < |a| ensures a[i] == b[i] {
      assert Printed(a)[i] == Printed(b)[i];
      ValueOfHex(a[i]);
      ValueOfHex(b[i]);
    }
  }

  lemma {:induction false} DottedIsMapped(sp: Spelling) returns (g: Group)
    requires sp.Legal() && Dotted(sp)
    ensures g.Quad? && g.Legal() && SpellingKey(sp) == g.Text() && Mapped(sp.Address())
    ensures sp.Address()[6..] == g.Hextets()
  {
    var low := Lower(sp.Text());
    g := QuadOf(low[7..]);
    MappedText(g);
    assert low == MappedSpelling(g).Text();
    EverySpellingExpands(sp, "");
    LowerTwice(sp.Text());
    EverySpellingExpands(MappedSpelling(g), "");
    PrintedIsInjective(sp.Address(), MappedSpelling(g).Address());
  }

  predicate IsF(c: char) { c == 'f' || c == 'F' }

  lemma {:induction false} LowerIsF(c: char)
    ensures LowerChar(c) == 'f' <==> IsF(c)
    ensures LowerChar(c) == ':' <==> c == ':'
    ensures IsDigit(LowerChar(c)) || LowerChar(c) == '.' ==> c == LowerChar(c)
  {
  }

  /** The text the pattern is after: `::ffff:` in any case and a dotted quad. */
  ghost predicate IsMappedText(s: string, g: Group) {
    && |s| > 7 && s[0] == ':' && s[1] == ':' && s[6] == ':'
    && IsF(s[2]) && IsF(s[3]) && IsF(s[4]) && IsF(s[5])
    && g.Quad? && g.Legal() && s[7..] == g.Text()
  }

  lemma {:induction false} FrontIsLower(s: string)
    requires |s| >= 7 && s[0] == ':' && s[1] == ':' && s[6] == ':'
    requires IsF(s[2]) && IsF(s[3]) && IsF(s[4]) && IsF(s[5])
    ensures Lower(s)[..7] == [':', ':', 'f', 'f', 'f', 'f', ':']
  {
    hide LowerChar, IsF;
    var front := Lower(s)[..7];
    forall i | 0 <= i < 7
      ensures front[i] == 'f' <==> IsF(s[i])
      ensures front[i] == ':' <==> s[i] == ':'
    {
      LowerIsF(s[i]);
    }
    assert front[0] == ':' && front[1] == ':' && front[6] == ':';
  }

  lemma {:induction false} CaughtIfMapped(s: string, g: Group)
    requires IsMappedText(s, g)
    ensures IsDottedMapped(Lower(s))
  {
    hide IsIpv4, IsHex, LowerChar, Join;
    QuadText(g);
    QuadIsLower(g);
    FrontIsLower(s);
    assert Lower(s)[7..] == Lower(s[7..]);
  }

  lemma {:induction false} QuadIsLower(g: Group)
    requires g.Quad? && g.Legal()
    ensures Lower(g.Text()) == g.Text()
  {
    QuadText(g);
    Ipv4Chars(g.Text());
    LowerOfPlain(g.Text());
  }

  /** Lower case that is digits and dots was so before. */
  lemma {:induction false} LowerQuad(s: string)
    requires IsIpv4(Lower(s))
    ensures s == Lower(s)
  {
    hide IsIpv4, LowerChar;
    Ipv4Chars(Lower(s));
    forall i | 0 <= i < |s| ensures s[i] == Lower(s)[i] {
      LowerIsF(s[i]);
    }
  }

  lemma {:induction false} MappedIfCaught(s: string) returns (g: Group)
    requires IsDottedMapped(Lower(s))
    ensures IsMappedText(s, g)
  {
    hide IsIpv4, LowerChar, IsF;
    var low := Lower(s);
    assert low[7..] == Lower(s[7..]);
    LowerQuad(s[7..]);
    g := QuadOf(s[7..]);
    var front := low[..7];
    assert front == [':', ':', 'f', 'f', 'f', 'f', ':'];
    forall i | 0 <= i < 7
      ensures front[i] == 'f' <==> IsF(s[i])
      ensures front[i] == ':' <==> s[i] == ':'
    {
      LowerIsF(s[i]);
    }
  }

  /** The pattern catches exactly the spellings of that form. */
  lemma {:induction false} DottedIff(sp: Spelling)
    ensures Dotted(sp) <==> exists g :: IsMappedText(sp.Text(), g)
  {
    hide IsDottedMapped, IsMappedText, Lower;
    if Dotted(sp) {
      var g := MappedIfCaught(sp.Text());
    }
    forall g | IsMappedText(sp.Text(), g) ensures Dotted(sp) {
      CaughtIfMapped(sp.Text(), g);
    }
  }

  // ---------------------------------------------------------------- equal keys

  lemma {:induction false} NetworkKeysAgreeIff(a: seq<nat>, b: seq<nat>)
    requires |a| == |b| == 4
    ensures Join(Printed(a), ':') + "::/64" == Join(Printed(b), ':') + "::/64" <==> a == b
  {
    var s, t := Join(Printed(a), ':'), Join(Printed(b), ':');
    if s + "::/64" == t + "::/64" {
      assert |s| == |t|;
      assert s == (s + "::/64")[..|s|] == (t + "::/64")[..|t|] == t;
      PrintedIsFree(a);
      PrintedIsFree(b);
      SplitOfJoin(Printed(a), ':');
      SplitOfJoin(Printed(b), ':');
      PrintedIsInjective(a, b);
    }
  }

  lemma {:induction false} PrintedIsFree(a: seq<nat>)
    ensures Free(Printed(a), ':')
  {
    forall i | 0 <= i < |a| ensures ':' !in Printed(a)[i] {
      assert AllHex(Printed(a)[i]);
    }
  }

  lemma {:induction false} QuadsAgreeIff(g: Group, h: Group)
    requires g.Quad? && h.Quad? && g.Legal() && h.Legal()
    ensures g.Text() == h.Text() <==> g.Hextets() == h.Hextets()
  {
    if g.Hextets() == h.Hextets() {
      assert g.Hextets()[0] == h.Hextets()[0] && g.Hextets()[1] == h.Hextets()[1];
      assert g == h;
    } else if g.Text() == h.Text() {
      QuadText(g);
      QuadText(h);
      PrintedIsInjective(g.Hextets(), h.Hextets());
    }
  }

  lemma {:induction false} QuadHasNoSlash(g: Group)
    requires g.Quad? && g.Legal()
    ensures '/' !in g.Text()
  {
    QuadText(g);
    Ipv4Chars(g.Text());
  }

  lemma {:induction false} NetworkKeyHasSlash(s: string)
    ensures '/' in s + "::/64"
  {
    assert (s + "::/64")[|s| + 2] == '/';
  }

  lemma {:induction false} DottedKeyIsNoNetwork(x: Spelling, y: Spelling)
    requires x.Legal() && y.Legal() && Dotted(x) && !Dotted(y)
    ensures SpellingKey(x) != SpellingKey(y)
  {
    var g := DottedIsMapped(x);
    QuadHasNoSlash(g);
    NetworkKeyHasSlash(Join(Printed(y.Address()[..4]), ':'));
  }

  /** The two hextets of the IPv4 address a client is known by, if it is. */
  ghost function Ipv4Of(host: Host): Option<seq<nat>>
    requires host.Legal()
  {
    match host
    case V4(g) => Some(g.Hextets())
    case V6(sp) => if Dotted(sp) then Some(sp.Address()[6..]) else None
  }

  lemma {:induction false} HostQuad(host: Host) returns (g: Group)
    requires host.Legal() && Ipv4Of(host).Some?
    ensures g.Quad? && g.Legal() && HostKey(host) == g.Text() && Ipv4Of(host) == Some(g.Hextets())
  {
    hide SpellingKey, Dotted;
    match host
    case V4(quad) => g := quad;
    case V6(sp) => g := DottedIsMapped(sp);
  }

  lemma {:induction false} QuadIsNoNetwork(x: Host, y: Host)
    requires x.Legal() && y.Legal() && Ipv4Of(x).Some? && Ipv4Of(y).None?
    ensures HostKey(x) != HostKey(y)
  {
    hide Join;
    var g := HostQuad(x);
    QuadHasNoSlash(g);
    NetworkKeyHasSlash(Join(Printed(y.sp.Address()[..4]), ':'));
  }

  /** Known by the same IPv4 address, or by none and in the same /64 network. */
  ghost predicate SameBucket(x: Host, y: Host)
    requires x.Legal() && y.Legal()
  {
    if Ipv4Of(x).Some? || Ipv4Of(y).Some? then Ipv4Of(x) == Ipv4Of(y)
    else x.sp.Address()[..4] == y.sp.Address()[..4]
  }

  lemma {:induction false} HostKeysAgreeIff(x: Host, y: Host)
    requires x.Legal() && y.Legal()
    ensures HostKey(x) == HostKey(y) <==> SameBucket(x, y)
  {
    hide Join;
    if Ipv4Of(x).Some? && Ipv4Of(y).Some? {
      var g := HostQuad(x);
      var h := HostQuad(y);
      QuadsAgreeIff(g, h);
    } else if Ipv4Of(x).Some? {
      QuadIsNoNetwork(x, y);
    } else if Ipv4Of(y).Some? {
      QuadIsNoNetwork(y, x);
    } else {
      NetworkKeysAgreeIff(x.sp.Address()[..4], y.sp.Address()[..4]);
    }
  }

  /** When two clients share a bucket, for every way of writing their headers. */
  lemma {:induction false} KeysAgreeIff(x: Header, y: Header)
    requires x.Legal() && y.Legal()
    ensures NormalizeClientIp(Some(x.Text())) == NormalizeClientIp(Some(y.Text())) <==> SameBucket(x.host, y.host)
  {
    KeyOfHeader(x);
    KeyOfHeader(y);
    HostKeysAgreeIff(x.host, y.host);
  }

  /** IPv6 addresses that are not IPv4-mapped share a bucket exactly when their top 64 bits
      agree. */
  lemma {:induction false} SameNetworkSameKey(x: Header, y: Header)
    requires x.Legal() && y.Legal() && x.host.V6? && y.host.V6?
    requires !Mapped(x.host.sp.Address()) && !Mapped(y.host.sp.Address())
    ensures NormalizeClientIp(Some(x.Text())) == NormalizeClientIp(Some(y.Text()))
       <==> x.host.sp.Address()[..4] == y.host.sp.Address()[..4]
  {
    if Dotted(x.host.sp) {
      var _ := DottedIsMapped(x.host.sp);
    }
    if Dotted(y.host.sp) {
      var _ := DottedIsMapped(y.host.sp);
    }
    KeysAgreeIff(x, y);
  }

  // ---------------------------------------------------------------- one mapped address, two keys

  lemma {:induction false} HexLength(n: nat, width: nat, bound: nat)
    requires width >= 1 && n < bound && bound == Pow16(width)
    ensures |ToHex(n)| <= width
  {
    if n >= 16 {
      assert Pow16(1) == 16;
      HexLength(n / 16, width - 1, Pow16(width - 1));
    }
  }

  function Pow16(n: nat): nat { if n == 0 then 1 else 16 * Pow16(n - 1) }

  /** The same address, its last two groups in hexadecimal. */
  ghost function HexSpelling(g: Group): Spelling
    requires g.Quad?
  {
    Gap([], [Digits("ffff"), Digits(ToHex(g.a * 256 + g.b)), Digits(ToHex(g.c * 256 + g.d))])
  }

  lemma {:induction false} HexIsLegal(n: nat)
    requires n < 65536
    ensures Digits(ToHex(n)).Legal() && Digits(ToHex(n)).Hextets() == [n]
  {
    assert Pow16(4) == 65536 by {
      assert Pow16(1) == 16 && Pow16(2) == 256;
    }
    HexLength(n, 4, 65536);
    ValueOfHex(n);
  }

  lemma {:induction false} ThreeHextets(x: Group, y: Group, z: Group)
    requires x.Digits? && y.Digits? && z.Digits? && x.Legal() && y.Legal() && z.Legal()
    ensures HextetsOf([x, y, z]) == [x.Hextets()[0], y.Hextets()[0], z.Hextets()[0]]
  {
    var gs := [x, y, z];
    assert gs[1..] == [y, z] && [y, z][1..] == [z];
    assert HextetsOf([z]) == z.Hextets() + HextetsOf([]);
    assert HextetsOf([y, z]) == y.Hextets() + HextetsOf([z]);
  }

  lemma {:induction false} ThreeTexts(a: string, b: string, c: string)
    ensures Join([a, b, c], ':') == a + ":" + b + ":" + c
  {
    assert [a, b, c][1..] == [b, c];
    JoinTwo(b, c);
  }

  lemma {:induction false} ThreeGroups(x: Group, y: Group, z: Group)
    requires x.Digits? && y.Digits? && z.Digits? && x.Legal() && y.Legal() && z.Legal()
    ensures Gap([], [x, y, z]).Legal()
    ensures Gap([], [x, y, z]).Address() == [0, 0, 0, 0, 0, x.Hextets()[0], y.Hextets()[0], z.Hextets()[0]]
    ensures Gap([], [x, y, z]).Text() == "::" + x.text + ":" + y.text + ":" + z.text
  {
    hide Join, IsHex, HexValue;
    ThreeHextets(x, y, z);
    ThreeTexts(x.text, y.text, z.text);
    NoGroups();
    assert GroupTexts([x, y, z]) == [x.text, y.text, z.text];
  }

  lemma {:induction false} HexSpellingFacts(g: Group)
    requires g.Quad? && g.Legal()
    ensures HexSpelling(g).Legal() && HexSpelling(g).Address() == [0, 0, 0, 0, 0, 0xffff] + g.Hextets()
    ensures !Dotted(HexSpelling(g))
  {
    hide Join, Dotted, IsHex, HexValue, ToHex;
    var high, low := g.a * 256 + g.b, g.c * 256 + g.d;
    HexIsLegal(high);
    HexIsLegal(low);
    FfffIsHex();
    ThreeGroups(Digits("ffff"), Digits(ToHex(high)), Digits(ToHex(low)));
    HexTextIsNotDotted(HexSpelling(g), ToHex(high), ToHex(low));
  }

  /** Every IPv4-mapped address has two spellings that land in different buckets. */
  lemma {:induction false} MappedSpellingsDiffer(g: Group)
    requires g.Quad? && g.Legal()
    ensures MappedSpelling(g).Legal() && HexSpelling(g).Legal()
    ensures MappedSpelling(g).Address() == HexSpelling(g).Address()
    ensures SpellingKey(MappedSpelling(g)) == g.Text() != SpellingKey(HexSpelling(g))
  {
    MappedText(g);
    DottedText(g);
    HexSpellingFacts(g);
    DottedKeyIsNoNetwork(MappedSpelling(g), HexSpelling(g));
  }

  lemma {:induction false} DottedText(g: Group)
    requires g.Quad? && g.Legal()
    ensures IsDottedMapped(Lower("::ffff:" + g.Text())) && Lower("::ffff:" + g.Text())[7..] == g.Text()
  {
    QuadText(g);
    Ipv4Chars(g.Text());
    LowerOfPlain("::ffff:" + g.Text());
  }

  lemma {:induction false} HexTextIsNotDotted(sp: Spelling, high: string, low: string)
    requires sp.Text() == "::" + "ffff" + ":" + high + ":" + low
    ensures !Dotted(sp)
  {
    var text := Lower(sp.Text());
    assert sp.Text()[7 + |high|] == ':';
    assert text[7..][|high|] == text[7 + |high|] == ':';
    assert ':' in text[7..];
    if IsDottedMapped(text) {
      Ipv4Chars(text[7..]);
    }
  }

  // ---------------------------------------------------------------- keys are fixed points

  /** Characters that no step before the address test touches. */
  predicate IsSettledChar(c: char) {
    IsCoreChar(c) && c != '[' && c != '%' && !('A' <= c <= 'Z')
  }

  lemma {:induction false} SettledText(k: string)
    requires k != "" && AllChars(IsSettledChar, k)
    ensures Trim(Before(k, ',')) == k && Plain(k) == k
  {
    hide IsSpace, Trim, Lower, IndexOf;
    assert Before(k, ',') == k && Before(k, '%') == k;
    assert "" + k + "" == k;
    TrimAround("", k, "");
    LowerOfPlain(k);
  }

  lemma {:induction false} DottedIsIpv6(k: string)
    requires IsDottedMapped(k)
    ensures IsIpv6(k)
  {
    var g := QuadOf(k[7..]);
    MappedText(g);
    assert k == k[..7] + k[7..] == MappedSpelling(g).Text();
  }

  lemma {:induction false} NotAnAddress(k: string, c: char)
    requires c in k && !IsSpellingChar(c)
    ensures !IsIpv4(k) && !IsDottedMapped(k) && !IsIpv6(k)
  {
    if IsIpv4(k) {
      Ipv4Chars(k);
    }
    if IsDottedMapped(k) {
      DottedIsIpv6(k);
    }
    if IsIpv6(k) {
      var sp: Spelling :| sp.Legal() && sp.Text() == k;
      SpellingChars(sp);
    }
  }

  lemma {:induction false} FixedIfForeign(k: string, c: char)
    requires k != "" && AllChars(IsSettledChar, k) && c in k && !IsSpellingChar(c)
    ensures NormalizeClientIp(Some(k)) == k
  {
    SettledText(k);
    NotAnAddress(k, c);
  }

  lemma {:induction false} FixedIpv4(k: string)
    requires IsIpv4(k)
    ensures NormalizeClientIp(Some(k)) == k
  {
    Ipv4Chars(k);
    if k != "" {
      SettledText(k);
    }
  }

  lemma {:induction false} FixedNetwork(a: seq<nat>)
    ensures NormalizeClientIp(Some(Join(Printed(a), ':') + "::/64")) == Join(Printed(a), ':') + "::/64"
  {
    var s := Join(Printed(a), ':');
    forall i | 0 <= i < |a| ensures AllChars(IsSettledChar, Printed(a)[i]) {
      HexIsSettled(a[i]);
    }
    JoinChars(Printed(a), ':', IsSettledChar);
    NetworkKeyHasSlash(s);
    FixedIfForeign(s + "::/64", '/');
  }

  lemma {:induction false} HexIsSettled(n: nat)
    ensures AllChars(IsSettledChar, ToHex(n))
  {
    if n >= 16 {
      HexIsSettled(n / 16);
    }
  }

  lemma {:induction false} FixedAnonymous()
    ensures NormalizeClientIp(Some("anonymous")) == "anonymous"
  {
    assert "anonymous"[1] == 'n';
    FixedIfForeign("anonymous", 'n');
  }

  lemma {:induction false} FixedAddress(forwarded: string)
    requires IsIpv6(Plain(forwarded)) && !IsDottedMapped(Plain(forwarded))
    ensures NormalizeClientIp(Some(KeyOf(forwarded))) == KeyOf(forwarded)
  {
    hide KeyOf, NormalizeClientIp, IsIpv4, Join, Lower;
    var plain := Plain(forwarded);
    var sp: Spelling :| sp.Legal() && sp.Text() == plain;
    LowerTwice(Before(Unwrapped(forwarded), '%'));
    KeyOfSpelling(forwarded, sp);
    FixedNetwork(sp.Address()[..4]);
  }

  lemma {:induction false} FixedOther(forwarded: string)
    requires Trim(forwarded) == forwarded && ',' !in forwarded && forwarded != ""
    requires KeyOf(forwarded) == forwarded
    ensures NormalizeClientIp(Some(KeyOf(forwarded))) == KeyOf(forwarded)
  {
    hide KeyOf, Trim;
    assert Before(forwarded, ',') == forwarded;
  }

  lemma {:induction false} KeyIsFixed(forwarded: string)
    requires Trim(forwarded) == forwarded && ',' !in forwarded
    ensures NormalizeClientIp(Some(KeyOf(forwarded))) == KeyOf(forwarded)
  {
    hide NormalizeClientIp, Trim, IsIpv4, IsIpv6, Plain, ExpandIpv6, Join;
    var plain := Plain(forwarded);
    FixedAnonymous();
    if IsIpv4(plain) {
      FixedIpv4(plain);
    } else if IsDottedMapped(plain) {
      FixedIpv4(plain[7..]);
    } else if IsIpv6(plain) {
      FixedAddress(forwarded);
    } else if forwarded != "" {
      FixedOther(forwarded);
    }
  }

  /** A key is its own key, whatever the header was. */
  lemma {:induction false} NormalizeIsIdempotent(ip: Option<string>)
    ensures NormalizeClientIp(Some(NormalizeClientIp(ip))) == NormalizeClientIp(ip)
  {
    hide KeyOf, Trim;
    FixedAnonymous();
    if ip.Some? && ip.value != "" {
      var first := Before(ip.value, ',');
      TrimIsSettled(first);
      KeyIsFixed(Trim(first));
    }
  }

  // ---------------------------------------------------------------- no address

  /** Without an address, or with only blanks before the first comma, everybody shares one key. */
  lemma {:induction false} NoAddressIsAnonymous(ip: Option<string>)
    requires ip.None? || Trim(Before(ip.value, ',')) == ""
    ensures NormalizeClientIp(ip) == "anonymous"
  {
    hide IsIpv6;
    if ip.Some? && ip.value != "" {
      assert Plain("") == "";
      EmptyIsNoAddress();
    }
  }

  lemma {:induction false} EmptyIsNoAddress()
    ensures !IsIpv4("") && !IsDottedMapped("") && !IsIpv6("")
  {
    assert Split("", '.') == [""];
    if IsIpv6("") {
      var sp: Spelling :| sp.Legal() && sp.Text() == "";
      HasColon(sp);
    }
  }

  /** Text that is no address, once brackets and zone are off, is its own key. */
  lemma {:induction false} ForeignTextIsKey(text: string)
    requires var forwarded := Trim(Before(text, ','));
             forwarded != "" && !IsIpv4(Plain(forwarded)) && !IsIpv6(Plain(forwarded))
    ensures NormalizeClientIp(Some(text)) == Trim(Before(text, ','))
  {
    hide IsIpv4, IsIpv6, Plain, Trim;
    if text == "" {
      TrimOfEmpty();
    }
    var plain := Plain(Trim(Before(text, ',')));
    if IsDottedMapped(plain) {
      DottedIsIpv6(plain);
    }
  }

  lemma {:induction false} TrimOfEmpty()
    ensures Trim(Before("", ',')) == ""
  {
  }
}
