/** Names on the message bus: percent-encoded segments joined by colons. Strings here are sequences of Unicode scalar
    values, the strings `encodeURIComponent` accepts. */
module ChannelNames {
  import opened Basics

  // ---------- Percent encoding ----------

  predicate IsUnreserved(c: char) {
    'A' <= c <= 'Z' || 'a' <= c <= 'z' || '0' <= c <= '9' || c in "-_.!~*'()"
  }

  type Octet = b: int | 0 <= b < 256

  function Utf8(c: char): (bytes: seq<Octet>)
    ensures 1 <= |bytes| <= 4
  {
    var p := c as int;
    if p < 0x80 then [p]
    else if p < 0x800 then [0xC0 + p / 64, 0x80 + p % 64]
    else if p < 0x10000 then [0xE0 + p / 64 / 64, 0x80 + p / 64 % 64, 0x80 + p % 64]
    else [0xF0 + p / 64 / 64 / 64, 0x80 + p / 64 / 64 % 64, 0x80 + p / 64 % 64, 0x80 + p % 64]
  }

  function HexChar(n: int): char
    requires 0 <= n < 16
  {
    if n < 10 then (48 + n) as char else (55 + n) as char
  }

  function Percent(b: Octet): string {
    ['%', HexChar(b / 16), HexChar(b % 16)]
  }

  function PercentAll(bytes: seq<Octet>): string {
    if bytes == [] then "" else Percent(bytes[0]) + PercentAll(bytes[1..])
  }

  function EncodeChar(c: char): string {
    if IsUnreserved(c) then [c] else PercentAll(Utf8(c))
  }

  /** `encodeURIComponent`. */
  function Encode(s: string): string {
    if s == "" then "" else EncodeChar(s[0]) + Encode(s[1..])
  }

  function HexValue(c: char): Option<int> {
    if '0' <= c <= '9' then Some(c as int - 48)
    else if 'A' <= c <= 'F' then Some(c as int - 55)
    else if 'a' <= c <= 'f' then Some(c as int - 87)
    else None
  }

  /** The octet written at the start of `t`, if `t` starts with one. */
  function ReadOctet(t: string): (b: Option<Octet>)
  {
    if |t| < 3 || t[0] != '%' || HexValue(t[1]).None? || HexValue(t[2]).None? then None
    else Some(16 * HexValue(t[1]).value + HexValue(t[2]).value)
  }

  /** The next `n` octets. */
  function ReadOctets(t: string, n: nat): (bytes: Option<seq<Octet>>)
    ensures bytes.Some? ==> |bytes.value| == n && 3 * n <= |t|
  {
    if n == 0 then Some([])
    else
      var b := ReadOctet(t);
      if b.None? then None
      else
        var rest := ReadOctets(t[3..], n - 1);
        if rest.None? then None else Some([b.value] + rest.value)
  }

  /** How many octets a lead octet announces. */
  function Announced(lead: Octet): nat {
    if lead < 0x80 then 1
    else if lead < 0xC0 then 0
    else if lead < 0xE0 then 2
    else if lead < 0xF0 then 3
    else if lead < 0xF8 then 4
    else 0
  }

  predicate IsContinuation(b: Octet) {
    0x80 <= b < 0xC0
  }

  /** What an octet adds to the number spelled so far. */
  function More(sofar: int, b: int): int {
    sofar * 64 + (b - 0x80)
  }

  /** The number the octets spell. */
  function Spelled(bytes: seq<Octet>): int
    requires 1 <= |bytes| <= 4
  {
    var lead: int := bytes[0];
    if |bytes| == 1 then lead
    else if |bytes| == 2 then More(lead - 0xC0, bytes[1])
    else if |bytes| == 3 then More(More(lead - 0xE0, bytes[1]), bytes[2])
    else More(More(More(lead - 0xF0, bytes[1]), bytes[2]), bytes[3])
  }

  /** The scalar value of a well-formed octet sequence: not overlong, not a surrogate, within range. */
  function FromUtf8(bytes: seq<Octet>): Option<char>
    requires 1 <= |bytes| <= 4
  {
    if exists i :: 1 <= i < |bytes| && !IsContinuation(bytes[i]) then None
    else
      var p := Spelled(bytes);
      var least := if |bytes| == 1 then 0 else if |bytes| == 2 then 0x80 else if |bytes| == 3 then 0x800 else 0x10000;
      if p < least || p >= 0x110000 || 0xD800 <= p < 0xE000 then None else Some(p as char)
  }

  /** `decodeURIComponent`; nothing when it throws. */
  function Decode(t: string): Option<string> {
    if t == "" then Some("")
    else if t[0] != '%' then Prepend(t[0], Decode(t[1..]))
    else
      var lead := ReadOctet(t);
      if lead.None? || Announced(lead.value) == 0 then None
      else
        var bytes := ReadOctets(t, Announced(lead.value));
        if bytes.None? then None
        else
          var c := FromUtf8(bytes.value);
          if c.None? then None else Prepend(c.value, Decode(t[3 * |bytes.value|..]))
  }

  function Prepend(c: char, rest: Option<string>): Option<string> {
    if rest.Some? then Some([c] + rest.value) else None
  }

  // ---------- What is encoded, and what is read ----------

  /** Letters, digits and nine marks stand for themselves. */
  lemma UnreservedIs(c: char)
    ensures IsUnreserved(c) <==>
              || c in "ABCDEFGHIJKLMNOPQRSTUVWXYZ" || c in "abcdefghijklmnopqrstuvwxyz" || c in "0123456789"
              || c in ['-', '_', '.', '!', '~', '*', '\'', '(', ')']
  {
  }

  /** Hexadecimal digits are read in either case. */
  lemma HexValueIff(c: char, n: int)
    ensures HexValue(c) == Some(n) <==>
              0 <= n < 16 && (c == "0123456789ABCDEF"[n] || c == "0123456789abcdef"[n])
  {
  }

  lemma OctetIsRead(t: string, hi: int, lo: int)
    requires 0 <= hi < 16 && 0 <= lo < 16
    ensures ReadOctet(t) == Some(16 * hi + lo) <==>
              && |t| >= 3 && t[0] == '%' && HexValue(t[1]) == Some(hi) && HexValue(t[2]) == Some(lo)
  {
  }

  /** Octets are read as a character exactly if they are its UTF-8: no overlong form, no surrogate, nothing out of
      range. */
  lemma FromUtf8Iff(bytes: seq<Octet>, c: char)
    requires 1 <= |bytes| <= 4 && Announced(bytes[0]) == |bytes|
    ensures FromUtf8(bytes) == Some(c) <==> bytes == Utf8(c)
  {
    Utf8Reads(c);
    if FromUtf8(bytes) == Some(c) {
      Utf8Spells(c);
      SpelledOnce(bytes, Utf8(c));
    }
  }

  /** Well-formed octets of one length spell one number. */
  lemma SpelledOnce(a: seq<Octet>, b: seq<Octet>)
    requires 1 <= |a| <= 4 && |a| == |b| && Announced(a[0]) == |a| == Announced(b[0]) && Spelled(a) == Spelled(b)
    requires forall i :: 1 <= i < |a| ==> IsContinuation(a[i]) && IsContinuation(b[i])
    ensures a == b
  {
    assert forall x: int, y: int, p: int, q: int :: 0x80 <= p < 0xC0 && 0x80 <= q < 0xC0 && More(x, p) == More(y, q) ==>
                                                      x == y && p == q;
    hide More;
  }

  // ---------- Encoding can be read back ----------

  lemma OctetReads(b: Octet, rest: string)
    ensures ReadOctet(Percent(b) + rest) == Some(b) && (Percent(b) + rest)[3..] == rest
  {
    var t := Percent(b) + rest;
    assert t[0] == '%' && t[1] == HexChar(b / 16) && t[2] == HexChar(b % 16);
    HexReads(b / 16);
    HexReads(b % 16);
  }

  lemma HexReads(n: int)
    requires 0 <= n < 16
    ensures HexValue(HexChar(n)) == Some(n)
  {
  }

  lemma {:induction false} OctetsRead(bytes: seq<Octet>, rest: string)
    ensures ReadOctets(PercentAll(bytes) + rest, |bytes|) == Some(bytes)
    ensures |PercentAll(bytes)| == 3 * |bytes| && (PercentAll(bytes) + rest)[3 * |bytes|..] == rest
    decreases |bytes|
  {
    if bytes != [] {
      var tail := PercentAll(bytes[1..]) + rest;
      assert PercentAll(bytes) + rest == Percent(bytes[0]) + tail;
      hide Percent;
      OctetReads(bytes[0], tail);
      OctetsRead(bytes[1..], rest);
      assert [bytes[0]] + bytes[1..] == bytes;
    }
  }

  lemma Utf8Spells(c: char)
    ensures Spelled(Utf8(c)) == c as int
    ensures Announced(Utf8(c)[0]) == |Utf8(c)| && forall i :: 1 <= i < |Utf8(c)| ==> IsContinuation(Utf8(c)[i])
    ensures |Utf8(c)| ==
            if c as int < 0x80 then 1 else if c as int < 0x800 then 2 else if c as int < 0x10000 then 3 else 4
  {
  }

  lemma Utf8Reads(c: char)
    ensures Announced(Utf8(c)[0]) == |Utf8(c)| && FromUtf8(Utf8(c)) == Some(c)
  {
    Utf8Spells(c);
    hide Utf8, Spelled;
  }

  lemma CharReads(c: char, rest: string)
    ensures Decode(EncodeChar(c) + rest) == Prepend(c, Decode(rest))
  {
    var t := EncodeChar(c) + rest;
    if IsUnreserved(c) {
      assert t[0] == c && t[1..] == rest;
    } else {
      var bytes := Utf8(c);
      var tail := PercentAll(bytes[1..]) + rest;
      assert PercentAll(bytes) + rest == Percent(bytes[0]) + tail;
      OctetReads(bytes[0], tail);
      assert t[0] == '%';
      OctetsRead(bytes, rest);
      Utf8Reads(c);
      hide Utf8, FromUtf8, PercentAll, Percent, ReadOctets, ReadOctet;
    }
  }

  /** Decoding inverts encoding. */
  lemma {:induction false} DecodeEncode(s: string)
    ensures Decode(Encode(s)) == Some(s)
  {
    if s != "" {
      hide EncodeChar;
      CharReads(s[0], Encode(s[1..]));
      DecodeEncode(s[1..]);
      assert [s[0]] + s[1..] == s;
    }
  }

  lemma EncodeInjective(s: string, t: string)
    requires Encode(s) == Encode(t)
    ensures s == t
  {
    DecodeEncode(s);
    DecodeEncode(t);
  }

  predicate HasNoColon(s: string) {
    forall i :: 0 <= i < |s| ==> s[i] != ':'
  }

  lemma {:induction false} PercentHasNoColon(bytes: seq<Octet>)
    ensures HasNoColon(PercentAll(bytes))
  {
    if bytes != [] {
      PercentHasNoColon(bytes[1..]);
    }
  }

  /** An encoded segment never contains the separator. */
  lemma {:induction false} EncodeHasNoColon(s: string)
    ensures HasNoColon(Encode(s))
  {
    if s != "" {
      EncodeHasNoColon(s[1..]);
      PercentHasNoColon(Utf8(s[0]));
      hide Utf8, PercentAll;
    }
  }

  // ---------- Groups ----------

  datatype Channel =
    | TenantInbox
    | ClientInbox
    | ClientPrivateInbox(clientConnectionId: string)
    | SessionEvents(sessionId: string)
    | WorkerCommands(workerId: string)

  /** A segment; an empty value is an error. */
  function Segment(value: string): Option<string> {
    if value == "" then None else Some(Encode(value))
  }

  function Wrap(before: string, segment: Option<string>, after: string): Option<string> {
    if segment.None? then None else Some(before + segment.value + after)
  }

  function Both(a: Option<string>, b: Option<string>): Option<string> {
    if a.None? || b.None? then None else Some(a.value + b.value)
  }

  function TenantPrefix(tenantId: string): Option<string> {
    Wrap("tenant:", Segment(tenantId), "")
  }

  function Suffix(c: Channel): Option<string> {
    match c
    case TenantInbox => Some(":central:events")
    case ClientInbox => Some(":clients")
    case ClientPrivateInbox(id) => Wrap(":client:", Segment(id), ":inbox")
    case SessionEvents(id) => Wrap(":session:", Segment(id), "")
    case WorkerCommands(id) => Wrap(":worker:", Segment(id), "")
  }

  /** Central's `toGroup`; nothing when it throws. */
  function ToGroup(tenantId: string, c: Channel): Option<string> {
    Both(TenantPrefix(tenantId), Suffix(c))
  }

  /** The client SDK's mapper knows no worker channel, the edge worker's only its own two. */
  datatype SdkChannel =
    | SdkTenantInbox
    | SdkClientInbox
    | SdkClientPrivateInbox(clientConnectionId: string)
    | SdkSessionEvents(sessionId: string)

  datatype EdgeChannel = EdgeTenantInbox | EdgeWorkerCommands(workerId: string)

  function SdkToGroup(tenantId: string, c: SdkChannel): Option<string> {
    match c
    case SdkTenantInbox => Both(TenantPrefix(tenantId), Some(":central:events"))
    case SdkClientInbox => Both(TenantPrefix(tenantId), Some(":clients"))
    case SdkClientPrivateInbox(id) => Both(TenantPrefix(tenantId), Wrap(":client:", Segment(id), ":inbox"))
    case SdkSessionEvents(id) => Both(TenantPrefix(tenantId), Wrap(":session:", Segment(id), ""))
  }

  function EdgeToGroup(tenantId: string, c: EdgeChannel): Option<string> {
    match c
    case EdgeTenantInbox => Both(TenantPrefix(tenantId), Some(":central:events"))
    case EdgeWorkerCommands(id) => Both(TenantPrefix(tenantId), Wrap(":worker:", Segment(id), ""))
  }

  function SdkAsChannel(c: SdkChannel): Channel {
    match c
    case SdkTenantInbox => TenantInbox
    case SdkClientInbox => ClientInbox
    case SdkClientPrivateInbox(id) => ClientPrivateInbox(id)
    case SdkSessionEvents(id) => SessionEvents(id)
  }

  function EdgeAsChannel(c: EdgeChannel): Channel {
    match c
    case EdgeTenantInbox => TenantInbox
    case EdgeWorkerCommands(id) => WorkerCommands(id)
  }

  /** A group is named exactly for a tenant and, where the channel has one, an id that are not empty; this is its
      name. */
  lemma GroupIsNamed(tenantId: string, c: Channel)
    ensures var tenant := "tenant:" + Encode(tenantId);
            match c
            case TenantInbox => tenantId != "" ==> ToGroup(tenantId, c) == Some(tenant + ":central:events")
            case ClientInbox => tenantId != "" ==> ToGroup(tenantId, c) == Some(tenant + ":clients")
            case ClientPrivateInbox(id) =>
              tenantId != "" && id != "" ==> ToGroup(tenantId, c) == Some(tenant + ":client:" + Encode(id) + ":inbox")
            case SessionEvents(id) =>
              tenantId != "" && id != "" ==> ToGroup(tenantId, c) == Some(tenant + ":session:" + Encode(id))
            case WorkerCommands(id) =>
              tenantId != "" && id != "" ==> ToGroup(tenantId, c) == Some(tenant + ":worker:" + Encode(id))
    ensures ToGroup(tenantId, c).None? <==>
              || tenantId == ""
              || (c.ClientPrivateInbox? && c.clientConnectionId == "") || (c.SessionEvents? && c.sessionId == "")
              || (c.WorkerCommands? && c.workerId == "")
  {
    hide Encode;
    var tenant := Encode(tenantId);
    assert "tenant:" + tenant + "" == "tenant:" + tenant;
    match c
    case ClientPrivateInbox(id) => Unwrapped("tenant:" + tenant, ":client:", Encode(id), ":inbox");
    case SessionEvents(id) => Unwrapped("tenant:" + tenant, ":session:", Encode(id), "");
    case WorkerCommands(id) => Unwrapped("tenant:" + tenant, ":worker:", Encode(id), "");
    case _ =>
  }

  lemma Unwrapped(a: string, b: string, c: string, d: string)
    ensures a + (b + c + d) == a + b + c + d && a + b + c + "" == a + b + c
  {
  }

  /** All three mappers give a shared channel the same name, or all refuse it. */
  lemma MappersAgree(tenantId: string, s: SdkChannel, e: EdgeChannel)
    ensures SdkToGroup(tenantId, s) == ToGroup(tenantId, SdkAsChannel(s))
    ensures EdgeToGroup(tenantId, e) == ToGroup(tenantId, EdgeAsChannel(e))
  {
    hide Wrap, Both, Segment, TenantPrefix;
  }

  /** Text up to the first colon is told apart from what follows. */
  lemma ColonSplits(a: string, b: string, x: string, y: string)
    requires HasNoColon(a) && HasNoColon(b) && a + ":" + x == b + ":" + y
    ensures a == b && x == y
  {
    var s, t := a + ":" + x, b + ":" + y;
    ColonAt(a, x);
    ColonAt(b, y);
    assert |a| == |b|;
    assert a == s[..|a|] && b == t[..|b|] && x == s[|a| + 1..] && y == t[|b| + 1..];
  }

  function FirstColon(s: string): (i: nat)
    ensures i <= |s| && (i < |s| ==> s[i] == ':') && forall j :: 0 <= j < i ==> s[j] != ':'
  {
    FirstIndex(s, (c: char) => c == ':')
  }

  lemma ColonAt(a: string, x: string)
    requires HasNoColon(a)
    ensures FirstColon(a + ":" + x) == |a|
  {
    var s := a + ":" + x;
    assert s[|a|] == ':';
    assert forall j :: 0 <= j < |a| ==> s[j] == a[j];
  }

  lemma DropPrefix(p: string, x: string, y: string)
    requires p + x == p + y
    ensures x == y
  {
    assert x == (p + x)[|p|..] && y == (p + y)[|p|..];
  }

  /** Which kind of channel a suffix belongs to can be read off three of its characters. */
  function Tag(t: string): nat
    requires |t| >= 8
  {
    if t[1] == 's' then 3 else if t[1] == 'w' then 4 else if t[2] == 'e' then 0 else if t[7] == 's' then 1 else 2
  }

  function Number(c: Channel): nat {
    match c
    case TenantInbox => 0
    case ClientInbox => 1
    case ClientPrivateInbox(_) => 2
    case SessionEvents(_) => 3
    case WorkerCommands(_) => 4
  }

  lemma SameTag(p: string, x: string, after: string)
    requires |p| >= 8
    ensures Tag(p + x + after) == Tag(p)
  {
    var t := p + x + after;
    assert t[1] == p[1] && t[2] == p[2] && t[7] == p[7];
  }

  lemma SuffixTag(c: Channel)
    requires Suffix(c).Some?
    ensures |Suffix(c).value| >= 8 && Tag(Suffix(c).value) == Number(c)
  {
    hide Encode;
    match c
    case ClientPrivateInbox(id) => SameTag(":client:", Encode(id), ":inbox");
    case SessionEvents(id) => SameTag(":session:", Encode(id), "");
    case WorkerCommands(id) => SameTag(":worker:", Encode(id), "");
    case _ =>
  }

  /** A wrapped segment gives its value back. */
  lemma WrapInjective(before: string, a: string, b: string, after: string)
    requires before + Encode(a) + after == before + Encode(b) + after
    ensures a == b
  {
    hide Encode;
    var x, y := Encode(a), Encode(b);
    assert |x| == |y|;
    assert x == (before + x + after)[|before|..|before| + |x|] && y == (before + y + after)[|before|..|before| + |y|];
    EncodeInjective(a, b);
  }

  lemma SuffixInjective(c: Channel, d: Channel)
    requires Suffix(c).Some? && Suffix(c) == Suffix(d)
    ensures c == d
  {
    SuffixTag(c);
    SuffixTag(d);
    hide Tag, Encode;
    match c
    case ClientPrivateInbox(id) => WrapInjective(":client:", id, d.clientConnectionId, ":inbox");
    case SessionEvents(id) => WrapInjective(":session:", id, d.sessionId, "");
    case WorkerCommands(id) => WrapInjective(":worker:", id, d.workerId, "");
    case _ =>
  }

  lemma SuffixStartsWithColon(c: Channel)
    requires Suffix(c).Some?
    ensures Suffix(c).value != "" && Suffix(c).value[0] == ':'
  {
    hide Encode;
  }

  /** A segment followed by a suffix can be taken apart at the suffix's colon. */
  lemma SegmentSplits(p: string, a: string, b: string, x: string, y: string)
    requires HasNoColon(a) && HasNoColon(b) && x != "" && y != "" && x[0] == ':' && y[0] == ':'
    requires p + a + "" + x == p + b + "" + y
    ensures a == b && x == y
  {
    assert p + a + "" + x == p + (a + ":" + x[1..]) && p + b + "" + y == p + (b + ":" + y[1..]);
    DropPrefix(p, a + ":" + x[1..], b + ":" + y[1..]);
    ColonSplits(a, b, x[1..], y[1..]);
    assert x == ":" + x[1..] && y == ":" + y[1..];
  }

  /** No two (tenant, channel) pairs share a group. */
  lemma GroupsAreDistinct(tenant: string, c: Channel, other: string, d: Channel)
    requires ToGroup(tenant, c).Some? && ToGroup(tenant, c) == ToGroup(other, d)
    ensures tenant == other && c == d
  {
    EncodeHasNoColon(tenant);
    EncodeHasNoColon(other);
    SuffixStartsWithColon(c);
    SuffixStartsWithColon(d);
    hide Encode, HasNoColon, Suffix;
    SegmentSplits("tenant:", Encode(tenant), Encode(other), Suffix(c).value, Suffix(d).value);
    EncodeInjective(tenant, other);
    SuffixInjective(c, d);
  }

  // ---------- User ids ----------

  datatype PrincipalType = User | Service

  datatype Principal = Principal(principalId: string, kind: PrincipalType, connectionId: Option<string>)

  const MARKER := ":connection:"

  function TypeText(kind: PrincipalType): string {
    if kind == User then "user" else "service"
  }

  /** `toUserId`: an empty connection id counts as none. */
  function ToUserId(p: Principal): string {
    var encoded := TypeText(p.kind) + ":" + Encode(p.principalId);
    if p.connectionId.Some? && p.connectionId.value != "" then encoded + MARKER + Encode(p.connectionId.value)
    else encoded
  }

  /** The first place where `s` continues with `m`, or `|s|`. */
  function IndexOf(s: string, m: string): (i: nat)
    ensures i <= |s| && (i < |s| ==> m <= s[i..]) && forall j :: 0 <= j < i ==> !(m <= s[j..])
  {
    if s == "" then 0
    else if m <= s then
      assert s[0..] == s;
      0
    else
      var k := IndexOf(s[1..], m);
      assert forall j :: 0 < j <= |s| ==> s[j..] == s[1..][j - 1..];
      assert s[0..] == s;
      1 + k
  }

  /** `principalFromUserId`; nothing when decoding throws. */
  function FromUserId(userId: string): Option<Principal> {
    var i := FirstColon(userId);
    if i == |userId| then Some(Principal(userId, User, None))
    else if userId[..i] != "user" && userId[..i] != "service" then Some(Principal(userId, User, None))
    else
      FromRest(if userId[..i] == "user" then User else Service, userId[i + 1..])
  }

  function FromRest(kind: PrincipalType, rest: string): Option<Principal> {
    var j := IndexOf(rest, MARKER);
    if j == |rest| then
      var id := Decode(rest);
      if id.None? then None else Some(Principal(id.value, kind, None))
    else
      var id, connection := Decode(rest[..j]), Decode(rest[j + |MARKER|..]);
      if id.None? || connection.None? then None else Some(Principal(id.value, kind, connection))
  }

  lemma MarkerAt(a: string, x: string)
    requires HasNoColon(a)
    ensures IndexOf(a + MARKER + x, MARKER) == |a|
    ensures (a + MARKER + x)[..|a|] == a && (a + MARKER + x)[|a| + |MARKER|..] == x
  {
    var s := a + MARKER + x;
    assert s[|a|..] == MARKER + x;
    assert MARKER <= s[|a|..];
    forall j | 0 <= j < |a| ensures !(MARKER <= s[j..]) {
      assert s[j..][0] == a[j] && MARKER[0] == ':';
    }
  }

  lemma NoMarker(a: string)
    requires HasNoColon(a)
    ensures IndexOf(a, MARKER) == |a|
  {
    forall j | 0 <= j < |a| ensures !(MARKER <= a[j..]) {
      assert a[j..][0] == a[j] && MARKER[0] == ':';
    }
  }

  lemma TypeHasNoColon(kind: PrincipalType)
    ensures HasNoColon(TypeText(kind)) && (TypeText(kind) == "user" <==> kind == User)
    ensures (TypeText(kind) == "service" <==> kind == Service)
  {
  }

  lemma TypeReads(kind: PrincipalType, rest: string)
    ensures FromUserId(TypeText(kind) + ":" + rest) == FromRest(kind, rest)
  {
    TypeHasNoColon(kind);
    var t := TypeText(kind);
    hide TypeText, FromRest, HasNoColon;
    ColonAt(t, rest);
    var userId := t + ":" + rest;
    assert userId[..|t|] == t && userId[|t| + 1..] == rest;
  }

  /** A user id with a connection is refused exactly if one of its two parts cannot be decoded. */
  lemma PartsMustDecode(kind: PrincipalType, a: string, b: string)
    requires HasNoColon(a)
    ensures FromRest(kind, a + MARKER + b) ==
            if Decode(a).Some? && Decode(b).Some? then Some(Principal(Decode(a).value, kind, Decode(b))) else None
  {
    MarkerAt(a, b);
    var rest := a + MARKER + b;
    assert rest[..|a|] == a && rest[|a| + |MARKER|..] == b;
    hide Decode;
  }

  /** A principal can be read back from its user id exactly when its connection id is absent or not empty. */
  lemma UserIdReadsBack(p: Principal)
    ensures FromUserId(ToUserId(p)) == Some(p) <==> p.connectionId != Some("")
    ensures FromUserId(ToUserId(p)) == Some(if p.connectionId == Some("") then p.(connectionId := None) else p)
  {
    var id := Encode(p.principalId);
    DecodeEncode(p.principalId);
    EncodeHasNoColon(p.principalId);
    hide Encode, Decode, HasNoColon, FromUserId, TypeText;
    if p.connectionId.Some? && p.connectionId.value != "" {
      var connection := Encode(p.connectionId.value);
      DecodeEncode(p.connectionId.value);
      var rest := id + MARKER + connection;
      assert ToUserId(p) == TypeText(p.kind) + ":" + rest by {
        Regroup(TypeText(p.kind) + ":", id, MARKER, connection);
      }
      TypeReads(p.kind, rest);
      MarkerAt(id, connection);
    } else {
      TypeReads(p.kind, id);
      NoMarker(id);
    }
  }

  lemma Regroup(a: string, b: string, c: string, d: string)
    ensures a + b + c + d == a + (b + c + d)
  {
  }
}
