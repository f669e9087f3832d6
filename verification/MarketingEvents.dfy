/** Marketing beacons: what the parser lets through, and the key that separates its rows
    (src/marketing-events/marketing-events.util.ts).

    The closed vocabularies, the hostname pattern and trim-and-lowercase are parameters. What
    is needed of them: no word and no hostname holds a NUL; registered words and hostnames are
    trimmed and in lower case; a hostname neither ends in a dot nor holds a forbidden sign. */
module MarketingEvents {
  import opened Prelude

  datatype Event = Event(
    name: string, page: string, locale: string, device: string, value: string,
    utmSource: string, utmMedium: string, utmCampaign: string, referrerDomain: string)
  {
    function Fields(): seq<string> {
      [name, page, locale, device, value, utmSource, utmMedium, utmCampaign, referrerDomain]
    }
  }

  const NUL := '\0'

  predicate Clean(s: string) { NUL !in s }

  predicate CleanEvent(e: Event) { forall i :: 0 <= i < 9 ==> Clean(e.Fields()[i]) }

  // ------------------------------------------------------------------ the parser

  /** No white space and none of the signs `/ ? # @ : % \\`, and no dot at the end. */
  predicate Bare(s: string) {
    s != "" && s[|s| - 1] != '.' && forall i :: 0 <= i < |s| ==> !Forbidden(s[i])
  }

  datatype Vocabulary = Vocabulary(
    names: set<string>, pages: set<string>, locales: set<string>, devices: set<string>,
    values: map<string, set<string>>, sources: set<string>, mediums: set<string>, campaigns: set<string>,
    normal: string -> string, isHostname: string -> bool, digits: string -> nat)
  {
    ghost predicate Sane() {
      && (forall s :: s in names + pages + locales + devices + sources + mediums + campaigns ==> Clean(s))
      && (forall n, s :: n in values && s in values[n] ==> Clean(s))
      && (forall s :: s in sources + mediums + campaigns ==> s != "" && s != UNREGISTERED && normal(s) == s)
      && normal("") == "" && normal(UNREGISTERED) == UNREGISTERED
      && (forall s :: isHostname(s) ==> Clean(s) && Bare(s) && normal(s) == s && normal("www." + s) == "www." + s)
    }
  }

  /** A JSON value where a string is expected. */
  datatype Value = Absent | NotAString | Str(text: string)

  /** The fields read from one raw event; `props` that are no object have them all absent. */
  datatype Raw = Raw(
    isObject: bool, name: Value, page: Value, locale: Value, device: Value,
    value: Value, utmSource: Value, utmMedium: Value, utmCampaign: Value, referrer: Value)

  predicate OneOf(list: set<string>, v: Value) { v.Str? && v.text in list }

  const UNREGISTERED := "unregistered"

  function RegisteredUtm(v: Vocabulary, register: set<string>, raw: Value): string {
    match raw
    case Absent => ""
    case NotAString => UNREGISTERED
    case Str(text) =>
      var value := v.normal(text);
      if value == "" then "" else if value in register then value else UNREGISTERED
  }

  const MAX_REFERRER_DOMAIN_LENGTH := 100

  /** `[\s/?#@:%\\]` */
  predicate Forbidden(c: char) {
    IsWhiteSpace(c) || c in {'/', '?', '#', '@', ':', '%', '\\'}
  }

  lemma ForbiddenSigns(c: char)
    ensures c in " \t\n\r/?#@:%\\" ==> Forbidden(c)
  {
    var signs := " \t\n\r/?#@:%\\";
    assert signs[0] == ' ' && signs[1] == '\t' && signs[2] == '\n' && signs[3] == '\r' && signs[4] == '/' && signs[5] == '?'
        && signs[6] == '#' && signs[7] == '@' && signs[8] == ':' && signs[9] == '%' && signs[10] == '\\';
  }

  function ReferrerDomain(v: Vocabulary, raw: Value): string {
    if !raw.Str? then ""
    else
      var host := v.normal(raw.text);
      if host == "" || |host| > MAX_REFERRER_DOMAIN_LENGTH then ""
      else if exists i :: 0 <= i < |host| && Forbidden(host[i]) then ""
      else
        var undotted := if host[|host| - 1] == '.' then host[..|host| - 1] else host;
        var bare := if "www." <= undotted then undotted[4..] else undotted;
        if !v.isHostname(bare) || v.digits(bare) >= 7 then "" else bare
  }

  /** `normalizeReferrerDomain`: nothing but a bare hostname of at most 100 characters with
      fewer than seven digits gets out, and one `www.` is gone. */
  method NormalizeReferrerDomain(v: Vocabulary, raw: Value) returns (domain: string)
    ensures domain == ReferrerDomain(v, raw)
    ensures domain != "" ==> raw.Str? && v.isHostname(domain) && v.digits(domain) < 7
                             && 0 < |domain| <= |v.normal(raw.text)| <= 100
                             && (forall c :: c in v.normal(raw.text) ==> c !in " \t\n\r/?#@:%\\")
                             && v.normal(raw.text) in {domain, domain + ".", "www." + domain, "www." + domain + "."}
  {
    if !raw.Str? {
      return "";
    }
    var host := v.normal(raw.text);
    ghost var given := host;
    if host == "" || |host| > MAX_REFERRER_DOMAIN_LENGTH {
      return "";
    }
    if exists i :: 0 <= i < |host| && Forbidden(host[i]) {
      return "";
    }
    forall c | c in host ensures c !in " \t\n\r/?#@:%\\" {
      ForbiddenSigns(c);
    }
    if host[|host| - 1] == '.' {
      host := host[..|host| - 1];
    }
    assert given == host || given == host + ".";
    if "www." <= host {
      assert host == "www." + host[4..];
      assert "www." + host[4..] + "." == host + ".";
      host := host[4..];
    }
    if !v.isHostname(host) {
      return "";
    }
    if v.digits(host) >= 7 {
      return "";
    }
    return host;
  }

  function ParseEvent(v: Vocabulary, raw: Raw): Option<Event> {
    if !raw.isObject || !OneOf(v.names, raw.name) || !OneOf(v.pages, raw.page)
       || !OneOf(v.locales, raw.locale) || !OneOf(v.devices, raw.device) then None
    else
      var name := raw.name.text;
      if name in v.values && !OneOf(v.values[name], raw.value) then None
      else
        var event := Event(name, raw.page.text, raw.locale.text, raw.device.text,
                           if name in v.values then raw.value.text else "", "", "", "", "");
        if name != "campaign_landing" then Some(event)
        else
          Some(event.(utmSource := RegisteredUtm(v, v.sources, raw.utmSource),
                      utmMedium := RegisteredUtm(v, v.mediums, raw.utmMedium),
                      utmCampaign := RegisteredUtm(v, v.campaigns, raw.utmCampaign),
                      referrerDomain := ReferrerDomain(v, raw.referrer)))
  }

  const MAX_EVENTS_PER_BEACON := 20

  function ParsedOf(v: Vocabulary, raws: seq<Raw>): seq<Event> {
    if raws == [] then []
    else
      var event := ParseEvent(v, raws[|raws| - 1]);
      ParsedOf(v, raws[..|raws| - 1]) + (if event.Some? then [event.value] else [])
  }

  method ParseBeacon(v: Vocabulary, events: seq<Raw>) returns (result: seq<Event>)
    ensures result == ParsedOf(v, events[..Min(20, |events|)])
    ensures |result| <= 20
  {
    result := [];
    var read := events[..Min(MAX_EVENTS_PER_BEACON, |events|)];
    for i := 0 to |read|
      invariant result == ParsedOf(v, read[..i]) && |result| <= i
    {
      assert read[..i + 1][..i] == read[..i];
      var event := ParseEvent(v, read[i]);
      if event.Some? {
        result := result + [event.value];
      }
    }
    assert read[..|read|] == read;
  }

  function Valid(v: Vocabulary, raws: seq<Raw>): set<nat> {
    set i: nat | i < |raws| && ParseEvent(v, raws[i]).Some?
  }

  lemma ValidNext(v: Vocabulary, raws: seq<Raw>)
    ensures Valid(v, []) == {}
    ensures raws != [] ==>
              var n := |raws| - 1;
              |Valid(v, raws)| == |Valid(v, raws[..n])| + if ParseEvent(v, raws[n]).Some? then 1 else 0
  {
    if raws != [] {
      var n := |raws| - 1;
      assert Valid(v, raws) == Valid(v, raws[..n]) + if ParseEvent(v, raws[n]).Some? then {n} else {};
    }
  }

  /** Of a beacon's events each valid one comes through, behind the valid ones before it, and
      nothing else does. */
  lemma {:induction false} EachComesThrough(v: Vocabulary, raws: seq<Raw>, i: nat)
    ensures |ParsedOf(v, raws)| == |Valid(v, raws)|
    ensures i < |raws| && ParseEvent(v, raws[i]).Some? ==>
              var k := |Valid(v, raws[..i])|;
              k < |ParsedOf(v, raws)| && ParsedOf(v, raws)[k] == ParseEvent(v, raws[i]).value
    decreases |raws|
  {
    ValidNext(v, raws);
    if raws != [] {
      var n := |raws| - 1;
      EachComesThrough(v, raws[..n], i);
      if i < n {
        assert raws[..n][..i] == raws[..i];
      }
    }
    hide Valid, ParseEvent;
  }

  /** The report an event came from: an object with its name, page, locale and device, its value
      when its kind has values, and on a campaign landing what its campaign and referrer read. */
  lemma ParsedFrom(v: Vocabulary, raw: Raw, e: Event)
    ensures ParseEvent(v, raw) == Some(e) <==>
              && raw.isObject && raw.name == Str(e.name) && raw.page == Str(e.page)
              && raw.locale == Str(e.locale) && raw.device == Str(e.device)
              && e.name in v.names && e.page in v.pages && e.locale in v.locales && e.device in v.devices
              && (if e.name in v.values then raw.value == Str(e.value) && e.value in v.values[e.name] else e.value == "")
              && if e.name != "campaign_landing" then e.utmSource == e.utmMedium == e.utmCampaign == e.referrerDomain == ""
                 else
                   && e.utmSource == RegisteredUtm(v, v.sources, raw.utmSource)
                   && e.utmMedium == RegisteredUtm(v, v.mediums, raw.utmMedium)
                   && e.utmCampaign == RegisteredUtm(v, v.campaigns, raw.utmCampaign)
                   && e.referrerDomain == ReferrerDomain(v, raw.referrer)
  {
    hide RegisteredUtm, ReferrerDomain;
  }

  lemma ClosedText(v: Vocabulary, raw: Raw)
    requires v.Sane()
    ensures var d := ReferrerDomain(v, raw.referrer); d == "" || (v.isHostname(d) && |d| <= MAX_REFERRER_DOMAIN_LENGTH && v.digits(d) < 7)
    ensures Clean(ReferrerDomain(v, raw.referrer))
  {
  }

  /** Nothing but the vocabularies, the campaign register and a hostname ever gets through, and
      no field of it holds a NUL. */
  lemma ParsedIsClosed(v: Vocabulary, raw: Raw)
    requires v.Sane() && ParseEvent(v, raw).Some?
    ensures var e := ParseEvent(v, raw).value;
            && CleanEvent(e)
            && e.name in v.names && e.page in v.pages && e.locale in v.locales && e.device in v.devices
            && (if e.name in v.values then e.value in v.values[e.name] else e.value == "")
            && e.utmSource in v.sources + {"", UNREGISTERED} && e.utmMedium in v.mediums + {"", UNREGISTERED}
            && e.utmCampaign in v.campaigns + {"", UNREGISTERED}
            && (e.referrerDomain == "" || v.isHostname(e.referrerDomain))
            && (e.name != "campaign_landing" ==> e.utmSource == e.utmMedium == e.utmCampaign == e.referrerDomain == "")
  {
    ClosedText(v, raw);
    var e := ParseEvent(v, raw).value;
    assert Clean("") && Clean(UNREGISTERED);
    hide ReferrerDomain, Clean;
    assert Clean(e.name) && Clean(e.page) && Clean(e.locale) && Clean(e.device) && Clean(e.value);
    assert Clean(e.utmSource) && Clean(e.utmMedium) && Clean(e.utmCampaign) && Clean(e.referrerDomain);
  }

  /** A UTM value is itself when it is registered, nothing when it is absent or blank, and
      `unregistered` otherwise. */
  lemma RegisteredExactly(v: Vocabulary, register: set<string>, raw: Value)
    requires "" !in register && UNREGISTERED !in register
    ensures var r := RegisteredUtm(v, register, raw);
            && (r in register <==> raw.Str? && v.normal(raw.text) in register)
            && (r in register ==> r == v.normal(raw.text))
            && (r == "" <==> raw.Absent? || (raw.Str? && v.normal(raw.text) == ""))
            && (r in register || r == "" || r == "unregistered")
  {
  }

  /** A hostname short enough and with few digits comes through, with or without `www.` and a
      final dot. */
  lemma HostnameIsKept(v: Vocabulary, raw: Value, host: string)
    requires raw.Str? && |v.normal(raw.text)| <= 100
    requires forall i :: 0 <= i < |v.normal(raw.text)| ==> !Forbidden(v.normal(raw.text)[i])
    requires host != "" && host[|host| - 1] != '.' && !("www." <= host)
    requires v.isHostname(host) && v.digits(host) < 7
    requires v.normal(raw.text) in {host, host + ".", "www." + host, "www." + host + "."}
    ensures ReferrerDomain(v, raw) == host
  {
    var given := v.normal(raw.text);
    var undotted := if given[|given| - 1] == '.' then given[..|given| - 1] else given;
    assert undotted == host || undotted == "www." + host;
    if "www." <= undotted {
      assert ("www." + host)[4..] == host;
    }
  }

  /** What a parsed event can be. */
  predicate Closed(v: Vocabulary, e: Event) {
    && e.name in v.names && e.page in v.pages && e.locale in v.locales && e.device in v.devices
    && (if e.name in v.values then e.value in v.values[e.name] else e.value == "")
    && if e.name != "campaign_landing" then e.utmSource == e.utmMedium == e.utmCampaign == e.referrerDomain == ""
       else
         && e.utmSource in v.sources + {"", UNREGISTERED} && e.utmMedium in v.mediums + {"", UNREGISTERED}
         && e.utmCampaign in v.campaigns + {"", UNREGISTERED} && ClosedDomain(v, e.referrerDomain)
  }

  /** A domain that still begins with `www.` came with another one in front. */
  predicate ClosedDomain(v: Vocabulary, d: string) {
    d == ""
    || (v.isHostname(d) && v.digits(d) < 7 && |d| + (if "www." <= d then 4 else 0) <= MAX_REFERRER_DOMAIN_LENGTH)
  }

  /** The event as a browser would report it, with this referrer. */
  function RawWith(e: Event, referrer: string): Raw {
    Raw(true, Str(e.name), Str(e.page), Str(e.locale), Str(e.device), Str(e.value),
        Str(e.utmSource), Str(e.utmMedium), Str(e.utmCampaign), Str(referrer))
  }

  lemma DomainIsClosed(v: Vocabulary, raw: Value)
    requires v.Sane()
    ensures ClosedDomain(v, ReferrerDomain(v, raw))
  {
  }

  lemma UtmReads(v: Vocabulary, register: set<string>, utm: string)
    requires v.Sane() && utm in register + {"", UNREGISTERED}
    requires forall s :: s in register ==> s != "" && s != UNREGISTERED && v.normal(s) == s
    ensures RegisteredUtm(v, register, Str(utm)) == utm
  {
  }

  /** The referrer that parses to a domain, and what the domain itself parses to. */
  lemma DomainReads(v: Vocabulary, d: string)
    requires v.Sane() && ClosedDomain(v, d)
    ensures ReferrerDomain(v, Str(if "www." <= d then "www." + d else d)) == d
    ensures ReferrerDomain(v, Str(d)) == d <==> !("www." <= d)
  {
    if d != "" && "www." <= d {
      var host := "www." + d;
      assert host[4..] == d && host[|host| - 1] == d[|d| - 1];
      forall i | 0 <= i < |host| ensures !Forbidden(host[i]) {
        if i >= 4 {
          assert host[i] == d[i - 4];
        }
      }
    }
  }

  lemma EventReads(v: Vocabulary, e: Event, referrer: string)
    requires v.Sane() && Closed(v, e)
    ensures ParseEvent(v, RawWith(e, referrer))
         == Some(if e.name == "campaign_landing" then e.(referrerDomain := ReferrerDomain(v, Str(referrer))) else e)
  {
    if e.name == "campaign_landing" {
      UtmReads(v, v.sources, e.utmSource);
      UtmReads(v, v.mediums, e.utmMedium);
      UtmReads(v, v.campaigns, e.utmCampaign);
    }
    hide ReferrerDomain, RegisteredUtm;
  }

  lemma ParsedIsInImage(v: Vocabulary, raw: Raw)
    requires v.Sane() && ParseEvent(v, raw).Some?
    ensures Closed(v, ParseEvent(v, raw).value)
  {
    ParsedFrom(v, raw, ParseEvent(v, raw).value);
    DomainIsClosed(v, raw.referrer);
    hide ReferrerDomain, ParseEvent;
  }

  /** The parser's image, exactly: an event can come out if and only if it is closed, and then
      some report gives it. */
  lemma {:induction false} ParserImage(v: Vocabulary, e: Event)
    requires v.Sane()
    ensures (exists raw :: ParseEvent(v, raw) == Some(e)) <==> Closed(v, e)
  {
    if raw :| ParseEvent(v, raw) == Some(e) {
      ParsedIsInImage(v, raw);
    }
    if Closed(v, e) {
      var referrer := if "www." <= e.referrerDomain then "www." + e.referrerDomain else e.referrerDomain;
      EventReads(v, e, referrer);
      if e.name == "campaign_landing" {
        DomainReads(v, e.referrerDomain);
      }
      hide ParseEvent, Closed, ReferrerDomain;
      assert ParseEvent(v, RawWith(e, referrer)) == Some(e);
    }
  }

  /** A parsed event reported again parses to itself if and only if its referrer has no `www.`
      left: only one is ever taken off. */
  lemma {:induction false} ParsedAgain(v: Vocabulary, raw: Raw)
    requires v.Sane() && ParseEvent(v, raw).Some?
    ensures var e := ParseEvent(v, raw).value;
            ParseEvent(v, RawWith(e, e.referrerDomain)) == Some(e) <==> !("www." <= e.referrerDomain)
  {
    var e := ParseEvent(v, raw).value;
    ParsedIsInImage(v, raw);
    EventReads(v, e, e.referrerDomain);
    if e.name == "campaign_landing" {
      DomainReads(v, e.referrerDomain);
    }
    hide ParseEvent, ReferrerDomain;
  }

  /** No field of any event a beacon yields holds a NUL. */
  lemma {:induction false} BeaconIsClean(v: Vocabulary, raws: seq<Raw>)
    requires v.Sane()
    ensures forall e :: e in ParsedOf(v, raws) ==> CleanEvent(e) && Closed(v, e)
    decreases |raws|
  {
    if raws != [] {
      var last := raws[|raws| - 1];
      BeaconIsClean(v, raws[..|raws| - 1]);
      if ParseEvent(v, last).Some? {
        ParsedIsClosed(v, last);
        ParsedIsInImage(v, last);
      }
      hide ParseEvent, CleanEvent, Closed;
    }
  }

  // ------------------------------------------------------------------ the key

  function Join(parts: seq<string>): string
    requires parts != []
  {
    if |parts| == 1 then parts[0] else parts[0] + [NUL] + Join(parts[1..])
  }

  function KeyOf(e: Event): string { Join(e.Fields()) }

  lemma {:induction false} JoinInjective(a: seq<string>, b: seq<string>)
    requires |a| == |b| >= 1 && Join(a) == Join(b)
    requires forall i :: 0 <= i < |a| ==> Clean(a[i]) && Clean(b[i])
    ensures a == b
    decreases |a|
  {
    if |a| > 1 {
      var s := Join(a);
      FirstNul(a[0], Join(a[1..]));
      FirstNul(b[0], Join(b[1..]));
      assert |a[0]| == |b[0]|;
      assert a[0] == s[..|a[0]|] == b[0];
      assert Join(a[1..]) == s[|a[0]| + 1..] == Join(b[1..]);
      JoinInjective(a[1..], b[1..]);
      assert a == [a[0]] + a[1..] && b == [b[0]] + b[1..];
    }
  }

  lemma FirstNul(head: string, rest: string)
    requires Clean(head)
    ensures var s := head + [NUL] + rest; s[|head|] == NUL && forall i :: 0 <= i < |head| ==> s[i] != NUL
  {
    var s := head + [NUL] + rest;
    forall i | 0 <= i < |head| ensures s[i] != NUL {
      assert s[i] == head[i];
    }
  }

  /** Events with NUL-free fields share a key only if they agree in all nine dimensions. */
  lemma KeyOfInjective(d: Event, e: Event)
    requires CleanEvent(d) && CleanEvent(e) && KeyOf(d) == KeyOf(e)
    ensures d == e
  {
    JoinInjective(d.Fields(), e.Fields());
    assert d.Fields()[0] == e.Fields()[0] && d.Fields()[1] == e.Fields()[1] && d.Fields()[2] == e.Fields()[2];
    assert d.Fields()[3] == e.Fields()[3] && d.Fields()[4] == e.Fields()[4] && d.Fields()[5] == e.Fields()[5];
    assert d.Fields()[6] == e.Fields()[6] && d.Fields()[7] == e.Fields()[7] && d.Fields()[8] == e.Fields()[8];
  }
}
