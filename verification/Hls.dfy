/** Signed HLS links and the playlist rewriter of the proxy. The secret is part of `mac`, which stands for
    HMAC-SHA256 under it; `resolve` stands for resolveURL. */
module Hls {
  import opened Text
  import opened Urls
  import opened Wrappers

  ghost predicate IsMac(mac: string -> string) {
    forall m :: mac(m) != "" && IsBytes(mac(m))
  }

  /** These two messages do not share a code. */
  ghost predicate Separates(mac: string -> string, m: string, n: string) {
    mac(m) == mac(n) ==> m == n
  }

  /** rewriter.SigningParams without the secret. */
  datatype Params = Params(uid: string, exp: string, hdr: string)

  datatype Extracted = Extracted(url: string, uid: string, exp: int, sig: string)

  // ---- signing ----

  function Message(target: string, uid: string, exp: string): string {
    target + ("|" + (uid + ("|" + exp)))
  }

  /** signURL of the rewriter and signValue of the signer. */
  function Signature(mac: string -> string, target: string, uid: string, exp: string): string {
    Encode64(mac(Message(target, uid, exp)), false)
  }

  predicate Verify(mac: string -> string, url: string, uid: string, exp: int, sig: string, now: int) {
    now <= exp && sig == Signature(mac, url, uid, FormatInt(exp))
  }

  function LinkSegments(target: string, p: Params, sig: string): seq<string> {
    [Segment("url", Escape(target)), Segment("exp", p.exp), Segment("uid", p.uid), Segment("sig", sig)]
    + if p.hdr != "" then [Segment("hdr", p.hdr)] else []
  }

  /** buildProxyURL: only the target is escaped. */
  function ProxyUrl(mac: string -> string, proxyBase: string, target: string, p: Params): string {
    proxyBase + ("?" + Join(LinkSegments(target, p, Signature(mac, target, p.uid, p.exp)), '&'))
  }

  /** BuildSignedURL for a base without query: every value escaped, keys in alphabetical order. */
  function SignedUrl(mac: string -> string, base: string, url: string, uid: string, exp: int, headers: string): string {
    base + ("?" + Join(
      [Segment("exp", Escape(FormatInt(exp)))]
      + (if headers != "" then [Segment("hdr", Escape(Encode64(headers, false)))] else [])
      + [Segment("sig", Escape(Signature(mac, url, uid, FormatInt(exp)))),
         Segment("uid", Escape(uid)),
         Segment("url", Escape(url))],
      '&'))
  }

  function ExtractSigned(query: seq<string>): Option<Extracted> {
    var url, uid := TrimSpace(Get(query, "url")), TrimSpace(Get(query, "uid"));
    var exp, sig := TrimSpace(Get(query, "exp")), TrimSpace(Get(query, "sig"));
    if url == "" || uid == "" || exp == "" || sig == "" || ParseInt(exp).None? then None
    else Some(Extracted(url, uid, ParseInt(exp).value, sig))
  }

  function Query(link: string): seq<string> {
    Split(QueryOf(link), '&')
  }

  /** What the proxy does with a link: refuse it, or fetch a target and sign the links of its playlist with
      these parameters. A link with blanks or control characters does not get as far as the handler. */
  function Serve(mac: string -> string, link: string, now: int): Option<(string, Params)> {
    var x := ExtractSigned(Query(link));
    if !Visible(link) || x.None? || !Verify(mac, x.value.url, x.value.uid, x.value.exp, x.value.sig, now) then None
    else Some((x.value.url, Params(x.value.uid, Get(Query(link), "exp"), Get(Query(link), "hdr"))))
  }

  /** The text of a rewritten link, character by character. */
  lemma LinkText(mac: string -> string, proxyBase: string, target: string, p: Params)
    ensures ProxyUrl(mac, proxyBase, target, p) ==
      proxyBase + ("?url=" + (Escape(target) + ("&exp=" + (p.exp + ("&uid=" + (p.uid + ("&sig=" + (
        Encode64(mac(target + "|" + p.uid + "|" + p.exp), false)
        + (if p.hdr != "" then "&hdr=" + p.hdr else "")))))))))
  {
    SignatureText(mac, target, p.uid, p.exp);
    JoinedText(proxyBase, Escape(target), p, Signature(mac, target, p.uid, p.exp),
               if p.hdr != "" then "&hdr=" + p.hdr else "");
  }

  lemma SignatureText(mac: string -> string, target: string, uid: string, exp: string)
    ensures Signature(mac, target, uid, exp) == Encode64(mac(target + "|" + uid + "|" + exp), false)
  {
    assert Message(target, uid, exp) == target + "|" + uid + "|" + exp;
  }

  lemma JoinedText(proxyBase: string, target: string, p: Params, sig: string, last: string)
    requires last == if p.hdr != "" then "&hdr=" + p.hdr else ""
    ensures
      proxyBase + ("?" + Join(
        [Segment("url", target), Segment("exp", p.exp), Segment("uid", p.uid), Segment("sig", sig)]
        + (if p.hdr != "" then [Segment("hdr", p.hdr)] else []), '&'))
      == proxyBase + ("?url=" + (target + ("&exp=" + (p.exp + ("&uid=" + (p.uid + ("&sig=" + (sig + last))))))))
  {
    assert "&" + Segment("hdr", p.hdr) == "&hdr=" + p.hdr;
    LinkJoined(target, p, sig, last);
    FirstText("?", "url", target, "&exp=" + (p.exp + ("&uid=" + (p.uid + ("&sig=" + (sig + last))))));
  }

  /** A parameter after its separator, with what follows. */
  lemma FirstText(mark: string, name: string, value: string, rest: string)
    ensures mark + (Segment(name, value) + rest) == (mark + name + "=") + (value + rest)
  {
  }

  lemma LinkJoined(target: string, p: Params, sig: string, last: string)
    requires last == if p.hdr != "" then "&" + Segment("hdr", p.hdr) else ""
    ensures
      Join([Segment("url", target), Segment("exp", p.exp), Segment("uid", p.uid), Segment("sig", sig)]
           + (if p.hdr != "" then [Segment("hdr", p.hdr)] else []), '&')
      == Segment("url", target) + ("&exp=" + (p.exp + ("&uid=" + (p.uid + ("&sig=" + (sig + last))))))
  {
    var hdr := if p.hdr != "" then [Segment("hdr", p.hdr)] else [];
    var three := [Segment("sig", sig)] + hdr;
    var two := [Segment("uid", p.uid)] + three;
    var one := [Segment("exp", p.exp)] + two;
    if p.hdr != "" {
      JoinFirst(Segment("sig", sig), hdr);
      Associative(Segment("sig", sig), "&", Segment("hdr", p.hdr));
    } else {
      assert three == [Segment("sig", sig)];
    }
    assert Join(three, '&') == Segment("sig", sig) + last;
    assert [Segment("url", target)] + one
      == [Segment("url", target), Segment("exp", p.exp), Segment("uid", p.uid), Segment("sig", sig)] + hdr;
    FirstText("&", "sig", sig, last);
    TailsJoined(target, p, three, "&sig=" + (sig + last));
  }

  lemma TailsJoined(target: string, p: Params, three: seq<string>, rest: string)
    requires three != [] && "&" + Join(three, '&') == rest
    ensures
      Join([Segment("url", target)] + ([Segment("exp", p.exp)] + ([Segment("uid", p.uid)] + three)), '&')
      == Segment("url", target) + ("&exp=" + (p.exp + ("&uid=" + (p.uid + rest))))
  {
    var two := [Segment("uid", p.uid)] + three;
    var one := [Segment("exp", p.exp)] + two;
    JoinFirst(Segment("uid", p.uid), three);
    JoinFirst(Segment("exp", p.exp), two);
    JoinFirst(Segment("url", target), one);
    Tail(Segment("uid", p.uid), "uid", p.uid, Join(three, '&'), rest);
    Tail(Segment("exp", p.exp), "exp", p.exp, Join(two, '&'), "&uid=" + (p.uid + rest));
    Associative(Segment("url", target), "&", Join(one, '&'));
  }

  /** A parameter between two separators. */
  lemma Tail(segment: string, name: string, value: string, joined: string, rest: string)
    requires segment == Segment(name, value) && "&" + joined == rest
    ensures "&" + (segment + "&" + joined) == ("&" + name + "=") + (value + rest)
  {
    Associative(segment, "&", joined);
    FirstText("&", name, value, rest);
  }

  lemma JoinFirst(head: string, rest: seq<string>)
    requires rest != []
    ensures Join([head] + rest, '&') == head + "&" + Join(rest, '&')
  {
    assert ([head] + rest)[1..] == rest;
  }

  /** A served link carries the code of its target, user and expiry, and the expiry is not over: without the
      secret no link is made. */
  lemma ServedIsSigned(mac: string -> string, link: string, now: int)
    requires Serve(mac, link, now).Some?
    ensures
      var (target, p) := Serve(mac, link, now).value;
      && target == TrimSpace(Get(Query(link), "url")) && p.uid == TrimSpace(Get(Query(link), "uid"))
      && target != "" && p.uid != ""
      && p.exp == Get(Query(link), "exp") && p.hdr == Get(Query(link), "hdr")
      && var exp := ParseInt(TrimSpace(p.exp));
      && exp.Some? && now <= exp.value
      && TrimSpace(Get(Query(link), "sig")) == Encode64(mac(target + "|" + p.uid + "|" + FormatInt(exp.value)), false)
  {
    var x := ExtractSigned(Query(link)).value;
    SignatureText(mac, x.url, x.uid, FormatInt(x.exp));
  }

  // ---- a link and its query ----

  predicate IsBase(base: string) {
    '?' !in base && '#' !in base && Visible(base)
  }

  lemma AfterMark(base: string, query: string, link: string)
    requires '?' !in base && link == base + ("?" + query)
    ensures IndexOf(link, '?') == |base| && link[|base| + 1..] == query
  {
    Associative(base, "?", query);
    CutJoined(base, '?', query);
  }

  lemma NoFragment(link: string)
    requires '#' !in link
    ensures link[..IndexOf(link, '#')] == link
  {
  }

  lemma QueryOfLink(base: string, query: string)
    requires IsBase(base) && '#' !in query
    ensures QueryOf(base + ("?" + query)) == query
  {
    AfterMark(base, query, base + ("?" + query));
    NoFragment(base + ("?" + query));
  }

  lemma {:induction false} JoinAvoids(parts: seq<string>, c: char, d: char)
    requires c != d && forall k :: 0 <= k < |parts| ==> d !in parts[k]
    ensures d !in Join(parts, c)
  {
    if |parts| > 1 {
      JoinAvoids(parts[1..], c, d);
    }
  }

  lemma {:induction false} JoinVisible(parts: seq<string>)
    requires forall k :: 0 <= k < |parts| ==> Visible(parts[k])
    ensures Visible(Join(parts, '&'))
  {
    if |parts| > 1 {
      JoinVisible(parts[1..]);
    }
  }

  lemma LinkVisible(base: string, text: string)
    requires Visible(base) && Visible(text)
    ensures Visible(base + ("?" + text))
  {
  }

  lemma SegmentVisible(name: string, text: string)
    requires IsName(name) && Visible(text)
    ensures Visible(Segment(name, text))
  {
  }

  lemma EscapedVisible(s: string)
    ensures Visible(Escape(s)) && '"' !in Escape(s)
  {
    EscapedAlphabet(s);
  }

  lemma EscapedIsSafe(s: string)
    requires IsBytes(s)
    ensures '&' !in Escape(s) && '#' !in Escape(s) && ';' !in Escape(s) && Unescape(Escape(s)) == Some(s)
  {
    EscapedAlphabet(s);
    EscapeRoundTrip(s);
  }

  lemma SignatureIsSafe(mac: string -> string, target: string, uid: string, exp: string)
    requires IsMac(mac)
    ensures
      var sig := Signature(mac, target, uid, exp);
      Transparent(sig) && sig != "" && IsTrimmed(sig) && forall k :: 0 <= k < |sig| ==> Is64(sig[k])
  {
    EncodedAlphabet(mac(Message(target, uid, exp)), false);
  }

  /** A value that a query carries as it is, or escaped. */
  ghost predicate Carries(text: string, value: string) {
    '&' !in text && '#' !in text && ';' !in text && Unescape(text) == Some(value)
  }

  lemma TransparentCarries(text: string)
    requires Transparent(text)
    ensures Carries(text, text)
  {
    UnescapeShrinks(text);
  }

  lemma SegmentCarries(name: string, text: string, value: string)
    requires IsName(name) && Carries(text, value)
    ensures Pair(Segment(name, text)) == Some((name, value)) && '&' !in Segment(name, text)
    ensures '#' !in Segment(name, text)
  {
    PairOfSegment(name, text);
  }

  /** A segment that stays in one piece. */
  predicate Safe(segment: string) {
    '&' !in segment && '#' !in segment
  }

  predicate AllSafe(segments: seq<string>) {
    forall k :: 0 <= k < |segments| ==> Safe(segments[k])
  }

  lemma SafeConcat(a: seq<string>, b: seq<string>)
    requires AllSafe(a) && AllSafe(b)
    ensures AllSafe(a + b)
  {
  }

  lemma QueryOfSegments(base: string, segments: seq<string>, text: string)
    requires IsBase(base) && segments != [] && AllSafe(segments) && text == Join(segments, '&')
    ensures Query(base + ("?" + text)) == segments
  {
    JoinAvoids(segments, '&', '#');
    QueryOfLink(base, text);
    SplitJoined(segments, '&');
  }

  lemma Names()
    ensures IsName("url") && IsName("exp") && IsName("uid") && IsName("sig") && IsName("hdr")
  {
  }

  lemma FindFirst(segments: seq<string>, name: string)
    requires segments != [] && Pair(segments[0]).Some?
    ensures Find(segments, name) ==
        if Pair(segments[0]).value.0 == name then Some(Pair(segments[0]).value.1)
        else Find(segments[1..], name)
  {
  }

  /** What is read from a query for each of the five parameters. */
  ghost predicate Reads(q: seq<string>, url: string, exp: string, uid: string, sig: string, hdr: string) {
    && Get(q, "url") == url && Get(q, "exp") == exp && Get(q, "uid") == uid
    && Get(q, "sig") == sig && Get(q, "hdr") == hdr
  }

  /** Every parameter of a rewritten link is read back as it was put in, and the link can be requested. */
  lemma ProxiedLinkParses(mac: string -> string, base: string, target: string, p: Params)
    requires IsMac(mac) && IsBase(base) && IsBytes(target)
    requires Transparent(p.uid) && Transparent(p.exp) && Transparent(p.hdr)
    ensures
      var link := ProxyUrl(mac, base, target, p);
      Visible(link) && Reads(Query(link), target, p.exp, p.uid, Signature(mac, target, p.uid, p.exp), p.hdr)
  {
    TransparentCarries(p.exp);
    TransparentCarries(p.uid);
    TransparentCarries(p.hdr);
    ProxiedLinkReads(mac, base, target, p, p.exp, p.uid);
    ProxiedLinkVisible(mac, base, target, p);
  }

  lemma ProxiedLinkVisible(mac: string -> string, base: string, target: string, p: Params)
    requires IsMac(mac) && IsBase(base) && Visible(p.uid) && Visible(p.exp) && Visible(p.hdr)
    ensures Visible(ProxyUrl(mac, base, target, p))
  {
    var sig := Signature(mac, target, p.uid, p.exp);
    Names();
    SignatureIsSafe(mac, target, p.uid, p.exp);
    EscapedVisible(target);
    SegmentVisible("url", Escape(target));
    SegmentVisible("exp", p.exp);
    SegmentVisible("uid", p.uid);
    SegmentVisible("sig", sig);
    SegmentVisible("hdr", p.hdr);
    JoinVisible(LinkSegments(target, p, sig));
    LinkVisible(base, Join(LinkSegments(target, p, sig), '&'));
  }

  /** A character of a parameter that is put in as it is is a character of the link. */
  lemma RawInLink(mac: string -> string, base: string, target: string, p: Params, c: char)
    requires c in p.uid || c in p.exp || c in p.hdr
    ensures c in ProxyUrl(mac, base, target, p)
  {
    var parts := LinkSegments(target, p, Signature(mac, target, p.uid, p.exp));
    var k := if c in p.exp then 1 else if c in p.uid then 2 else 4;
    assert parts[k] ==
      if k == 1 then Segment("exp", p.exp) else if k == 2 then Segment("uid", p.uid) else Segment("hdr", p.hdr);
    assert c in parts[k];
    HasIt(parts, '&', c, k);
    var text := Join(parts, '&');
    assert c in "?" + text;
  }

  lemma InvisibleLink(mac: string -> string, base: string, target: string, p: Params)
    requires !Visible(p.uid) || !Visible(p.exp) || !Visible(p.hdr)
    ensures !Visible(ProxyUrl(mac, base, target, p))
  {
    var text := if !Visible(p.uid) then p.uid else if !Visible(p.exp) then p.exp else p.hdr;
    var k :| 0 <= k < |text| && !(text[k] as int > 32 && text[k] as int != 127);
    RawInLink(mac, base, target, p, text[k]);
  }

  lemma ProxiedLinkReads(mac: string -> string, base: string, target: string, p: Params, exp: string, uid: string)
    requires IsMac(mac) && IsBase(base) && IsBytes(target)
    requires Carries(p.exp, exp) && Carries(p.uid, uid) && Carries(p.hdr, p.hdr)
    ensures Reads(Query(ProxyUrl(mac, base, target, p)), target, exp, uid, Signature(mac, target, p.uid, p.exp), p.hdr)
  {
    var sig := Signature(mac, target, p.uid, p.exp);
    SignatureIsSafe(mac, target, p.uid, p.exp);
    EscapedIsSafe(target);
    TransparentCarries(sig);
    LinkIsRead(base, Escape(target), target, p, exp, uid, sig);
  }

  /** A segment that gives a parameter its value. */
  ghost predicate Gives(segment: string, name: string, value: string) {
    Pair(segment) == Some((name, value)) && '&' !in segment && '#' !in segment
  }

  lemma LinkIsRead(base: string, url: string, target: string, p: Params, exp: string, uid: string, sig: string)
    requires IsBase(base) && Carries(url, target) && Carries(p.exp, exp) && Carries(p.uid, uid) && Carries(sig, sig)
    requires Carries(p.hdr, p.hdr)
    ensures
      var segments := [Segment("url", url), Segment("exp", p.exp), Segment("uid", p.uid), Segment("sig", sig)]
        + if p.hdr != "" then [Segment("hdr", p.hdr)] else [];
      Reads(Query(base + ("?" + Join(segments, '&'))), target, exp, uid, sig, p.hdr)
  {
    Names();
    SegmentCarries("url", url, target);
    SegmentCarries("exp", p.exp, exp);
    SegmentCarries("uid", p.uid, uid);
    SegmentCarries("sig", sig, sig);
    SegmentCarries("hdr", p.hdr, p.hdr);
    var tail := if p.hdr != "" then [Segment("hdr", p.hdr)] else [];
    var four := [Segment("url", url), Segment("exp", p.exp), Segment("uid", p.uid), Segment("sig", sig)];
    FourAreRead(base, four, tail, Join(four + tail, '&'), target, exp, uid, sig, p.hdr);
  }

  lemma FourAreRead(
      base: string, four: seq<string>, tail: seq<string>, text: string, url: string, exp: string, uid: string,
      sig: string, hdr: string)
    requires IsBase(base) && |four| == 4 && text == Join(four + tail, '&')
    requires Gives(four[0], "url", url) && Gives(four[1], "exp", exp) && Gives(four[2], "uid", uid)
    requires Gives(four[3], "sig", sig)
    requires if hdr == "" then tail == [] else |tail| == 1 && Gives(tail[0], "hdr", hdr)
    ensures Reads(Query(base + ("?" + text)), url, exp, uid, sig, hdr)
  {
    FourAreSafe(four, tail, url, exp, uid, sig, hdr);
    FourThenTail(four, tail, url, exp, uid, sig, hdr);
    ReadsLink(base, four + tail, text, url, exp, uid, sig, hdr);
  }

  lemma FourAreSafe(
      four: seq<string>, tail: seq<string>, url: string, exp: string, uid: string, sig: string, hdr: string)
    requires |four| == 4
    requires Gives(four[0], "url", url) && Gives(four[1], "exp", exp) && Gives(four[2], "uid", uid)
    requires Gives(four[3], "sig", sig)
    requires if hdr == "" then tail == [] else |tail| == 1 && Gives(tail[0], "hdr", hdr)
    ensures AllSafe(four + tail)
  {
    assert AllSafe(four);
    SafeConcat(four, tail);
  }

  lemma ReadsLink(
      base: string, q: seq<string>, text: string, url: string, exp: string, uid: string, sig: string, hdr: string)
    requires IsBase(base) && q != [] && AllSafe(q) && text == Join(q, '&') && Reads(q, url, exp, uid, sig, hdr)
    ensures Reads(Query(base + ("?" + text)), url, exp, uid, sig, hdr)
  {
    QueryOfSegments(base, q, text);
  }

  lemma FourThenTail(
      four: seq<string>, tail: seq<string>, url: string, exp: string, uid: string, sig: string, hdr: string)
    requires |four| == 4
    requires Gives(four[0], "url", url) && Gives(four[1], "exp", exp) && Gives(four[2], "uid", uid)
    requires Gives(four[3], "sig", sig)
    requires if hdr == "" then tail == [] else |tail| == 1 && Gives(tail[0], "hdr", hdr)
    ensures Reads(four + tail, url, exp, uid, sig, hdr)
  {
    FindInFour(four, url, exp, uid, sig);
    FindConcat(four, tail, "url");
    FindConcat(four, tail, "exp");
    FindConcat(four, tail, "uid");
    FindConcat(four, tail, "sig");
    FindConcat(four, tail, "hdr");
    assert Get(tail, "hdr") == hdr;
  }

  lemma FindInFour(q: seq<string>, url: string, exp: string, uid: string, sig: string)
    requires |q| == 4
    requires Gives(q[0], "url", url) && Gives(q[1], "exp", exp) && Gives(q[2], "uid", uid) && Gives(q[3], "sig", sig)
    ensures Find(q, "url") == Some(url) && Find(q, "exp") == Some(exp) && Find(q, "uid") == Some(uid)
    ensures Find(q, "sig") == Some(sig)
    ensures Find(q, "hdr") == None
  {
    forall name: string
      ensures Find(q, name) ==
        if name == "url" then Some(url) else if name == "exp" then Some(exp) else if name == "uid" then Some(uid)
        else if name == "sig" then Some(sig) else None
    {
      FindFirst(q, name);
      FindFirst(q[1..], name);
      FindFirst(q[1..][1..], name);
      FindFirst(q[1..][1..][1..], name);
    }
  }

  // ---- which links are accepted ----

  /** The text that FormatInt gives for some 64-bit number. */
  predicate IsCanonical(exp: string) {
    ParseInt(exp).Some? && FormatInt(ParseInt(exp).value) == exp
  }

  lemma CanonicalIsPlain(n: int)
    requires InInt64(n)
    ensures
      var exp := FormatInt(n);
      && IsCanonical(exp) && ParseInt(exp) == Some(n) && Transparent(exp)
      && TrimSpace(exp) == exp && exp != "" && IsBytes(exp)
  {
    DecimalRoundTrip(n);
    FormatIntIsDecimal(n);
    TrimSpaceFacts(FormatInt(n));
  }

  /** A rewritten link passes until its expiry when its target has no white space around it. */
  lemma ProxiedLinkPasses(mac: string -> string, base: string, target: string, p: Params, exp: int, now: int)
    requires IsMac(mac) && IsBase(base) && IsBytes(target) && target != "" && IsTrimmed(target)
    requires Transparent(p.uid) && p.uid != "" && IsTrimmed(p.uid) && Transparent(p.hdr) && p.exp == FormatInt(exp)
    requires InInt64(exp)
    ensures Serve(mac, ProxyUrl(mac, base, target, p), now) == if now <= exp then Some((target, p)) else None
  {
    CanonicalIsPlain(exp);
    ProxiedLinkParses(mac, base, target, p);
    SignatureIsSafe(mac, target, p.uid, p.exp);
    TrimSpaceFacts(target);
    TrimSpaceFacts(p.uid);
    TrimSpaceFacts(Signature(mac, target, p.uid, p.exp));
  }

  lemma SignatureDecides(mac: string -> string, m: string, n: string)
    requires IsMac(mac) && Separates(mac, m, n) && Encode64(mac(m), false) == Encode64(mac(n), false)
    ensures m == n
  {
    Base64RoundTrip(mac(m), false);
    Base64RoundTrip(mac(n), false);
  }

  lemma TrimmedMessage(target: string, uid: string, exp: string, exp2: string)
    requires TrimSpace(target) != "" && Message(target, uid, exp) == Message(TrimSpace(target), uid, exp2)
    ensures IsTrimmed(target) && exp == exp2
  {
    TrimLeftFacts(target);
    TrimRightFacts(TrimLeft(target));
    TrimSpaceFacts(target);
    var t, u := TrimSpace(target), TrimLeft(target);
    var m, m2 := Message(target, uid, exp), Message(t, uid, exp2);
    assert m[0] == target[0] && m2[0] == t[0] == u[0];
    assert !IsSpace(target[0]) && u == target;
    assert m2[|t|] == '|' && m2[|t|] == m[|t|];
    assert t == target;
    var rest, rest2 := "|" + (uid + ("|" + exp)), "|" + (uid + ("|" + exp2));
    assert m[|t|..] == rest && m2[|t|..] == rest2;
    assert rest[1 + |uid| + 1..] == exp && rest2[1 + |uid| + 1..] == exp2;
  }

  /** The message whose signature the proxy computes to check a link. */
  function CheckedMessage(x: Extracted): string {
    Message(x.url, x.uid, FormatInt(x.exp))
  }

  lemma {:induction false} ParsedCharacters(s: string)
    requires ParseInt(s).Some?
    ensures forall k :: 0 <= k < |s| ==> IsDigit(s[k]) || s[k] == '-' || s[k] == '+'
    ensures forall k :: 1 <= k < |s| ==> IsDigit(s[k])
  {
    var signed := s != "" && (s[0] == '-' || s[0] == '+');
    var digits := if signed then s[1..] else s;
    assert forall k :: 0 <= k < |digits| ==> IsDigit(digits[k]);
    assert forall k :: 1 <= k < |s| ==> s[k] == if signed then digits[k - 1] else digits[k];
  }

  /** An expiry text that has been read once either stays as it is in a query, or has white space that no
      link can carry, or a plus sign. */
  lemma ExpiryKinds(exp: string)
    requires ParseInt(TrimSpace(exp)).Some?
    ensures IsCanonical(exp) ==> Transparent(exp)
    ensures Visible(exp) ==> Transparent(exp) || exp[0] == '+'
    ensures Visible(exp) ==> '&' !in exp && '#' !in exp && ';' !in exp && '%' !in exp
  {
    TrimSpaceFacts(exp);
    if IsCanonical(exp) {
      ParsedIsInt64(exp);
      CanonicalIsPlain(ParseInt(exp).value);
    }
    if Visible(exp) {
      assert exp != "" ==> !IsSpace(exp[0]) && !IsSpace(exp[|exp| - 1]);
      ParsedCharacters(exp);
    }
  }

  lemma {:induction false} UnescapePlain(s: string)
    requires '%' !in s
    ensures Unescape(s).Some?
  {
    if s != "" {
      UnescapePlain(s[1..]);
    }
  }

  /** A link with an expiry text that is not in canonical form fails the signature check. */
  lemma OddExpiryIsRefused(mac: string -> string, base: string, target: string, p: Params, now: int)
    requires IsMac(mac) && IsBase(base) && IsBytes(target)
    requires Transparent(p.uid) && p.uid != "" && IsTrimmed(p.uid) && Transparent(p.hdr)
    requires ParseInt(TrimSpace(p.exp)).Some? && Visible(p.exp)
    requires
      var x := ExtractSigned(Query(ProxyUrl(mac, base, target, p)));
      x.Some? ==> Separates(mac, Message(target, p.uid, p.exp), CheckedMessage(x.value))
    requires Serve(mac, ProxyUrl(mac, base, target, p), now).Some?
    ensures IsTrimmed(target) && target != "" && IsCanonical(p.exp)
  {
    var link := ProxyUrl(mac, base, target, p);
    var x := ExtractSigned(Query(link)).value;
    ExpiryKinds(p.exp);
    UnescapePlain(p.exp);
    TransparentCarries(p.uid);
    TransparentCarries(p.hdr);
    ProxiedLinkReads(mac, base, target, p, Unescape(p.exp).value, p.uid);
    TrimSpaceFacts(p.uid);
    SignatureIsSafe(mac, target, p.uid, p.exp);
    TrimSpaceFacts(Signature(mac, target, p.uid, p.exp));
    SignatureDecides(mac, Message(target, p.uid, p.exp), CheckedMessage(x));
    TrimmedMessage(target, p.uid, p.exp, FormatInt(x.exp));
    ParsedIsInt64(TrimSpace(Get(Query(link), "exp")));
    CanonicalIsPlain(x.exp);
    TrimSpaceFacts(target);
  }

  /** Exactly which rewritten links pass, for an expiry text that has been read once: the target must be
      non-empty and free of surrounding white space and the text the canonical form of a number that is not
      yet over. */
  lemma ProxiedLinkPassesIff(mac: string -> string, base: string, target: string, p: Params, now: int)
    requires IsMac(mac) && IsBase(base) && IsBytes(target)
    requires Transparent(p.uid) && p.uid != "" && IsTrimmed(p.uid) && Transparent(p.hdr)
    requires ParseInt(TrimSpace(p.exp)).Some?
    requires
      var x := ExtractSigned(Query(ProxyUrl(mac, base, target, p)));
      x.Some? ==> Separates(mac, Message(target, p.uid, p.exp), CheckedMessage(x.value))
    ensures Serve(mac, ProxyUrl(mac, base, target, p), now).Some?
      <==> target != "" && IsTrimmed(target) && IsCanonical(p.exp) && now <= ParseInt(p.exp).value
  {
    ExpiryKinds(p.exp);
    if target != "" && IsTrimmed(target) && IsCanonical(p.exp) {
      ParsedIsInt64(p.exp);
      ProxiedLinkPasses(mac, base, target, p, ParseInt(p.exp).value, now);
    } else if Serve(mac, ProxyUrl(mac, base, target, p), now).Some? {
      if Visible(p.exp) {
        OddExpiryIsRefused(mac, base, target, p, now);
      } else {
        InvisibleLink(mac, base, target, p);
      }
    }
  }

  lemma ParsedIsInt64(s: string)
    requires ParseInt(s).Some?
    ensures InInt64(ParseInt(s).value)
  {
  }

  // ---- links from the signer ----

  lemma ThreeInOrder(three: seq<string>, sig: string, uid: string, url: string)
    requires |three| == 3 && Gives(three[0], "sig", sig) && Gives(three[1], "uid", uid) && Gives(three[2], "url", url)
    ensures Find(three, "sig") == Some(sig) && Find(three, "uid") == Some(uid) && Find(three, "url") == Some(url)
    ensures Find(three, "exp") == None && Find(three, "hdr") == None
  {
    forall name: string
      ensures Find(three, name) ==
        if name == "sig" then Some(sig)
        else if name == "uid" then Some(uid)
        else if name == "url" then Some(url)
        else None
    {
      FindFirst(three, name);
      FindFirst(three[1..], name);
      FindFirst(three[1..][1..], name);
    }
  }

  lemma FindOne(one: string, name: string, value: string, other: string)
    requires Gives(one, name, value)
    ensures Find([one], other) == if other == name then Some(value) else None
  {
    FindFirst([one], other);
  }

  lemma SignedParts(
      exp: string, hdrs: seq<string>, three: seq<string>, e: string, hdr: string, sig: string, uid: string, url: string)
    requires Gives(exp, "exp", e) && (if hdr == "" then hdrs == [] else |hdrs| == 1 && Gives(hdrs[0], "hdr", hdr))
    requires |three| == 3 && Gives(three[0], "sig", sig) && Gives(three[1], "uid", uid) && Gives(three[2], "url", url)
    ensures Reads([exp] + hdrs + three, url, e, uid, sig, hdr)
  {
    ThreeInOrder(three, sig, uid, url);
    forall name: string ensures Find([exp] + hdrs + three, name) ==
      if Find([exp], name).Some? then Find([exp], name)
      else if Find(hdrs, name).Some? then Find(hdrs, name)
      else Find(three, name)
    {
      FindConcat([exp], hdrs, name);
      FindConcat([exp] + hdrs, three, name);
    }
    forall name: string ensures Find([exp], name) == if name == "exp" then Some(e) else None {
      FindOne(exp, "exp", e, name);
    }
    if hdr != "" {
      assert hdrs == [hdrs[0]];
      forall name: string ensures Find(hdrs, name) == if name == "hdr" then Some(hdr) else None {
        FindOne(hdrs[0], "hdr", hdr, name);
      }
    }
  }

  lemma EscapedGives(name: string, value: string)
    requires IsName(name) && IsBytes(value)
    ensures Gives(Segment(name, Escape(value)), name, value)
  {
    EscapedIsSafe(value);
    SegmentCarries(name, Escape(value), value);
  }

  lemma Encoded64IsBytes(s: string)
    ensures IsBytes(Encode64(s, false)) && Transparent(Encode64(s, false)) && (s != "" ==> Encode64(s, false) != "")
  {
    EncodedAlphabet(s, false);
  }

  lemma SignedLinkParses(mac: string -> string, base: string, url: string, uid: string, exp: int, headers: string)
    requires IsMac(mac) && IsBase(base) && IsBytes(url) && IsBytes(uid) && InInt64(exp)
    ensures Reads(Query(SignedUrl(mac, base, url, uid, exp, headers)), url, FormatInt(exp), uid,
                  Signature(mac, url, uid, FormatInt(exp)), Encode64(headers, false))
  {
    var e, sig, hdr := FormatInt(exp), Signature(mac, url, uid, FormatInt(exp)), Encode64(headers, false);
    CanonicalIsPlain(exp);
    Encoded64IsBytes(mac(Message(url, uid, e)));
    Encoded64IsBytes(headers);
    Names();
    EscapedGives("exp", e);
    EscapedGives("hdr", hdr);
    EscapedGives("sig", sig);
    EscapedGives("uid", uid);
    EscapedGives("url", url);
    var hdrs := if headers != "" then [Segment("hdr", Escape(hdr))] else [];
    var three := [Segment("sig", Escape(sig)), Segment("uid", Escape(uid)), Segment("url", Escape(url))];
    var first := Segment("exp", Escape(e));
    SignedQuery(base, Join([first] + hdrs + three, '&'), first, hdrs, three, e, hdr, sig, uid, url);
  }

  lemma SignedQuery(
      base: string, text: string, exp: string, hdrs: seq<string>, three: seq<string>, e: string, hdr: string,
      sig: string, uid: string, url: string)
    requires IsBase(base)
    requires Gives(exp, "exp", e) && (if hdr == "" then hdrs == [] else |hdrs| == 1 && Gives(hdrs[0], "hdr", hdr))
    requires |three| == 3 && Gives(three[0], "sig", sig) && Gives(three[1], "uid", uid) && Gives(three[2], "url", url)
    requires text == Join([exp] + hdrs + three, '&')
    ensures Reads(Query(base + ("?" + text)), url, e, uid, sig, hdr)
  {
    SignedAreSafe(exp, hdrs, three, e, hdr, sig, uid, url);
    SignedParts(exp, hdrs, three, e, hdr, sig, uid, url);
    ReadsLink(base, [exp] + hdrs + three, text, url, e, uid, sig, hdr);
  }

  lemma SignedAreSafe(
      exp: string, hdrs: seq<string>, three: seq<string>, e: string, hdr: string, sig: string, uid: string, url: string)
    requires Gives(exp, "exp", e) && (if hdr == "" then hdrs == [] else |hdrs| == 1 && Gives(hdrs[0], "hdr", hdr))
    requires |three| == 3 && Gives(three[0], "sig", sig) && Gives(three[1], "uid", uid) && Gives(three[2], "url", url)
    ensures AllSafe([exp] + hdrs + three)
  {
    assert AllSafe(hdrs) && AllSafe([exp]) && AllSafe(three);
    SafeConcat([exp], hdrs);
    SafeConcat([exp] + hdrs, three);
  }

  lemma SignedLinkVisible(mac: string -> string, base: string, url: string, uid: string, exp: int, headers: string)
    requires IsBase(base)
    ensures Visible(SignedUrl(mac, base, url, uid, exp, headers))
  {
    Names();
    forall name, value: string | IsName(name) ensures Visible(Segment(name, Escape(value))) {
      EscapedVisible(value);
      SegmentVisible(name, Escape(value));
    }
    var sig := Signature(mac, url, uid, FormatInt(exp));
    var parts := [Segment("exp", Escape(FormatInt(exp)))]
      + (if headers != "" then [Segment("hdr", Escape(Encode64(headers, false)))] else [])
      + [Segment("sig", Escape(sig)), Segment("uid", Escape(uid)), Segment("url", Escape(url))];
    JoinVisible(parts);
    LinkVisible(base, Join(parts, '&'));
  }

  /** A link from the signer passes until its expiry, for any user id and headers, and hands them to the rewriter. */
  lemma SignedLinkPasses(
      mac: string -> string, base: string, url: string, uid: string, exp: int, headers: string, now: int)
    requires IsMac(mac) && IsBase(base) && InInt64(exp)
    requires IsBytes(url) && url != "" && IsTrimmed(url) && IsBytes(uid) && uid != "" && IsTrimmed(uid)
    ensures Serve(mac, SignedUrl(mac, base, url, uid, exp, headers), now)
      == if now <= exp then Some((url, Params(uid, FormatInt(exp), Encode64(headers, false)))) else None
  {
    CanonicalIsPlain(exp);
    SignedLinkParses(mac, base, url, uid, exp, headers);
    SignedLinkVisible(mac, base, url, uid, exp, headers);
    SignatureIsSafe(mac, url, uid, FormatInt(exp));
    TrimSpaceFacts(url);
    TrimSpaceFacts(uid);
    TrimSpaceFacts(Signature(mac, url, uid, FormatInt(exp)));
  }

  // ---- nesting ----

  /** Following one reference of a served playlist, through a proxy reached under `proxyBase`. */
  datatype Hop = Hop(proxyBase: string, ref: string)

  /** The target the hops lead to. */
  function TargetAfter(resolve: (string, string) -> string, url: string, hops: seq<Hop>): string {
    if hops == [] then url else resolve(TargetAfter(resolve, url, hops[..|hops| - 1]), hops[|hops| - 1].ref)
  }

  /** The link that the hops lead to at this time, None when the proxy refuses one on the way. */
  function LinkAfter(mac: string -> string, resolve: (string, string) -> string, link: string, hops: seq<Hop>, now: int)
      : Option<string>
  {
    if hops == [] then Some(link)
    else
      var before, hop := LinkAfter(mac, resolve, link, hops[..|hops| - 1], now), hops[|hops| - 1];
      if before.None? then None
      else
        var served := Serve(mac, before.value, now);
        if served.None? then None
        else Some(ProxyUrl(mac, hop.proxyBase, resolve(served.value.0, hop.ref), served.value.1))
  }

  ghost predicate GoodTarget(target: string) {
    IsBytes(target) && target != "" && IsTrimmed(target)
  }

  ghost predicate GoodHops(resolve: (string, string) -> string, url: string, hops: seq<Hop>) {
    && (forall k :: 0 <= k < |hops| ==> IsBase(hops[k].proxyBase))
    && (forall k :: 0 <= k <= |hops| ==> GoodTarget(TargetAfter(resolve, url, hops[..k])))
  }

  /** ProxiedLinkPasses for all times. */
  lemma PassesUntil(mac: string -> string, base: string, target: string, p: Params, exp: int)
    requires IsMac(mac) && IsBase(base) && GoodTarget(target) && InInt64(exp) && p.exp == FormatInt(exp)
    requires Transparent(p.uid) && p.uid != "" && IsTrimmed(p.uid) && Transparent(p.hdr)
    ensures forall at: int ::
      Serve(mac, ProxyUrl(mac, base, target, p), at) == if at <= exp then Some((target, p)) else None
  {
    forall at: int
      ensures Serve(mac, ProxyUrl(mac, base, target, p), at) == if at <= exp then Some((target, p)) else None
    {
      ProxiedLinkPasses(mac, base, target, p, exp, at);
    }
  }

  /** Every link reached from a signed link through any depth of rewritten playlists is served until the
      signed expiry, for the target its references lead to and with the same user, expiry and headers. */
  lemma {:induction false} NestedLinksStayValid(
      mac: string -> string, resolve: (string, string) -> string, base: string, url: string, uid: string, exp: int,
      headers: string, hops: seq<Hop>, now: int)
    requires IsMac(mac) && IsBase(base) && InInt64(exp) && now <= exp
    requires IsBytes(uid) && uid != "" && IsTrimmed(uid) && Transparent(uid) && GoodHops(resolve, url, hops)
    ensures
      var link := LinkAfter(mac, resolve, SignedUrl(mac, base, url, uid, exp, headers), hops, now);
      && link.Some?
      && Serve(mac, link.value, now)
          == Some((TargetAfter(resolve, url, hops), Params(uid, FormatInt(exp), Encode64(headers, false))))
      && forall later :: later > exp ==> Serve(mac, link.value, later) == None
  {
    var start, p := SignedUrl(mac, base, url, uid, exp, headers), Params(uid, FormatInt(exp), Encode64(headers, false));
    assert hops[..|hops|] == hops;
    if hops == [] {
      forall at: int ensures Serve(mac, start, at) == if at <= exp then Some((url, p)) else None {
        SignedLinkPasses(mac, base, url, uid, exp, headers, at);
      }
    } else {
      var before, hop := hops[..|hops| - 1], hops[|hops| - 1];
      assert forall k :: 0 <= k <= |before| ==> before[..k] == hops[..k];
      NestedLinksStayValid(mac, resolve, base, url, uid, exp, headers, before, now);
      Encoded64IsBytes(headers);
      PassesUntil(mac, hop.proxyBase, TargetAfter(resolve, url, hops), p, exp);
    }
  }

  // ---- user ids that need escaping ----

  lemma TrimShrinks(s: string)
    ensures |TrimSpace(s)| <= |s| && (|TrimSpace(s)| == |s| ==> TrimSpace(s) == s)
  {
    TrimLeftFacts(s);
    TrimRightFacts(TrimLeft(s));
  }

  lemma UidAlone(u: string)
    requires '&' !in u
    ensures
      var found := Find(Split(Segment("uid", u), '&'), "uid");
      && (found.Some? ==> |found.value| <= |u|)
      && (found == Some(u) ==> '%' !in u && '+' !in u && ';' !in u)
  {
    Names();
    SplitNone(Segment("uid", u), '&');
    PairOfSegment("uid", u);
    UnescapeShrinks(u);
    assert Find([Segment("uid", u)], "uid") ==
        if Pair(Segment("uid", u)).Some? then Some(Pair(Segment("uid", u)).value.1)
        else None;
  }

  lemma UidCut(u: string)
    requires '&' in u
    ensures Find(Split(Segment("uid", u), '&'), "uid").Some? ==>
        |Find(Split(Segment("uid", u), '&'), "uid").value| < |u|
  {
    var i := IndexOf(u, '&');
    var head, tail := u[..i], u[i + 1..];
    assert Segment("uid", u) == Segment("uid", head) + ['&'] + tail;
    SplitFirst(Segment("uid", head), '&', tail);
    FindConcat([Segment("uid", head)], Split(tail, '&'), "uid");
    SplitNone(Segment("uid", head), '&');
    UidAlone(head);
    FindShrinks(tail, "uid");
  }

  /** What is read for a user id put into a query as it is: at most as much, and the same only without
      special characters. */
  lemma UidFound(u: string)
    ensures
      var found := Find(Split(Segment("uid", u), '&'), "uid");
      && (found.Some? ==> |found.value| <= |u|)
      && (found == Some(u) && '#' !in u ==> Intact(u))
  {
    if '&' in u {
      UidCut(u);
    } else {
      UidAlone(u);
    }
  }

  /** The parts of each part, in order. */
  function PartsOf(parts: seq<string>, c: char): seq<string> {
    if parts == [] then [] else Split(parts[0], c) + PartsOf(parts[1..], c)
  }

  lemma {:induction false} SplitOfJoin(parts: seq<string>, c: char)
    requires parts != []
    ensures Split(Join(parts, c), c) == PartsOf(parts, c)
  {
    if |parts| == 1 {
      assert PartsOf(parts[1..], c) == [];
    } else {
      SplitOfJoin(parts[1..], c);
      SplitConcat(parts[0], c, Join(parts[1..], c));
      Associative(parts[0], [c], Join(parts[1..], c));
    }
  }

  /** Cutting a joined text where `d` first occurs. */
  lemma {:induction false} CutJoin(parts: seq<string>, c: char, d: char, k: nat)
    requires c != d && k < |parts| && d in parts[k] && forall j :: 0 <= j < k ==> d !in parts[j]
    ensures Join(parts, c)[..IndexOf(Join(parts, c), d)] == Join(parts[..k] + [parts[k][..IndexOf(parts[k], d)]], c)
  {
    var whole, cut := Join(parts, c), parts[k][..IndexOf(parts[k], d)];
    if k == 0 {
      assert parts[..0] + [cut] == [cut];
      FirstIn(parts[0], if |parts| == 1 then "" else [c] + Join(parts[1..], c), d);
      assert |parts| == 1 ==> parts[0] + "" == parts[0];
      Associative(parts[0], [c], Join(parts[1..], c));
    } else {
      CutJoin(parts[1..], c, d, k - 1);
      var rest := Join(parts[1..], c);
      assert (parts[..k] + [cut])[1..] == parts[1..][..k - 1] + [cut];
      HasIt(parts[1..], c, d, k - 1);
      AfterHead(parts[0] + [c], rest, d);
    }
  }

  lemma FirstIn(a: string, b: string, d: char)
    requires d in a
    ensures (a + b)[..IndexOf(a + b, d)] == a[..IndexOf(a, d)]
  {
    var i, j := IndexOf(a, d), IndexOf(a + b, d);
    assert i < |a| && (a + b)[i] == d;
    assert forall k :: 0 <= k < i ==> (a + b)[k] == a[k];
    assert j == i;
  }

  lemma AfterHead(a: string, b: string, d: char)
    requires d !in a && d in b
    ensures (a + b)[..IndexOf(a + b, d)] == a + b[..IndexOf(b, d)]
  {
    var i, j := IndexOf(b, d), IndexOf(a + b, d);
    assert i < |b| && (a + b)[|a| + i] == d;
    assert forall k :: 0 <= k < |a| + i ==> (a + b)[k] == if k < |a| then a[k] else b[k - |a|];
    assert j == |a| + i;
  }

  lemma {:induction false} HasIt(parts: seq<string>, c: char, d: char, k: nat)
    requires k < |parts| && d in parts[k]
    ensures d in Join(parts, c)
  {
    if |parts| > 1 {
      if k > 0 {
        HasIt(parts[1..], c, d, k - 1);
      }
    }
  }

  /** The user id read from a query with a raw user id between other parameters. */
  lemma UidInQuery(a: string, b: string, u: string, rest: seq<string>)
    requires '&' !in a && '&' !in b && Pair(a).Some? && Pair(a).value.0 != "uid" && Pair(b).Some?
    requires Pair(b).value.0 != "uid"
    requires Find(PartsOf(rest, '&'), "uid") == None
    ensures Find(Split(Join([a, b, Segment("uid", u)] + rest, '&'), '&'), "uid")
        == Find(Split(Segment("uid", u), '&'), "uid")
  {
    FindInParts(a, b, Segment("uid", u), rest, [a, b, Segment("uid", u)] + rest);
    SplitOfJoin([a, b, Segment("uid", u)] + rest, '&');
  }

  lemma FindInParts(a: string, b: string, c: string, rest: seq<string>, all: seq<string>)
    requires '&' !in a && '&' !in b && Pair(a).Some? && Pair(a).value.0 != "uid" && Pair(b).Some?
    requires Pair(b).value.0 != "uid"
    requires Find(PartsOf(rest, '&'), "uid") == None && all == [a, b, c] + rest
    ensures Find(PartsOf(all, '&'), "uid") == Find(Split(c, '&'), "uid")
  {
    SplitNone(a, '&');
    SplitNone(b, '&');
    assert all[1..][1..][1..] == rest;
    FindConcat([a], PartsOf(all[1..], '&'), "uid");
    FindConcat([b], PartsOf(all[1..][1..], '&'), "uid");
    FindConcat(Split(c, '&'), PartsOf(rest, '&'), "uid");
    FindFirst([a], "uid");
    FindFirst([b], "uid");
  }

  lemma QueryOfCut(base: string, query: string)
    requires IsBase(base) && '#' in query
    ensures QueryOf(base + ("?" + query)) == query[..IndexOf(query, '#')]
  {
    var cut := query[..IndexOf(query, '#')];
    Associative(base, "?", query);
    AfterHead(base + "?", query, '#');
    CutJoined(base, '?', cut);
    assert base + "?" + cut == base + ['?'] + cut;
  }

  lemma CutSegment(u: string)
    requires '#' in u
    ensures Segment("uid", u)[..IndexOf(Segment("uid", u), '#')] == Segment("uid", u[..IndexOf(u, '#')])
  {
    assert Segment("uid", u) == "uid=" + u;
    AfterHead("uid=", u, '#');
    assert Segment("uid", u[..IndexOf(u, '#')]) == "uid=" + u[..IndexOf(u, '#')];
  }

  lemma OthersHaveNoUid(sig: string, hdr: string)
    requires Transparent(sig) && Transparent(hdr)
    ensures
      var rest := AfterUid(hdr, sig);
      && Find(PartsOf(rest, '&'), "uid") == None
      && forall k :: 0 <= k < |rest| ==> '#' !in rest[k]
  {
    Names();
    TransparentCarries(sig);
    TransparentCarries(hdr);
    SegmentCarries("sig", sig, sig);
    SegmentCarries("hdr", hdr, hdr);
    SplitNone(Segment("sig", sig), '&');
    SplitNone(Segment("hdr", hdr), '&');
    FindOne(Segment("sig", sig), "sig", sig, "uid");
    FindOne(Segment("hdr", hdr), "hdr", hdr, "uid");
    FindConcat([Segment("sig", sig)], [Segment("hdr", hdr)], "uid");
    var rest := AfterUid(hdr, sig);
    if hdr == "" {
      assert rest == [Segment("sig", sig)] && rest[1..] == [];
      assert PartsOf(rest, '&') == [Segment("sig", sig)];
    } else {
      assert rest == [Segment("sig", sig), Segment("hdr", hdr)] && rest[1..] == [Segment("hdr", hdr)];
      assert PartsOf(rest[1..], '&') == [Segment("hdr", hdr)] by {
        assert rest[1..][1..] == [];
        assert [Segment("hdr", hdr)] + [] == [Segment("hdr", hdr)];
      }
      assert PartsOf(rest, '&') == [Segment("sig", sig)] + [Segment("hdr", hdr)];
    }
  }

  lemma HashCuts(base: string, parts: seq<string>, text: string)
    requires IsBase(base) && |parts| > 2 && '#' !in parts[0] && '#' !in parts[1] && '#' in parts[2]
    requires text == Join(parts, '&')
    ensures QueryOf(base + ("?" + text)) == Join(parts[..2] + [parts[2][..IndexOf(parts[2], '#')]], '&')
  {
    CutText(parts, 2, text);
    QueryOfCut(base, text);
  }

  lemma CutText(parts: seq<string>, k: nat, text: string)
    requires k < |parts| && '#' in parts[k] && (forall j :: 0 <= j < k ==> '#' !in parts[j]) && text == Join(parts, '&')
    ensures '#' in text && text[..IndexOf(text, '#')] == Join(parts[..k] + [parts[k][..IndexOf(parts[k], '#')]], '&')
  {
    HasIt(parts, '&', '#', k);
    CutJoin(parts, '&', '#', k);
  }

  lemma HashedUidIsLost(base: string, a: string, b: string, u: string, rest: seq<string>, text: string)
    requires IsBase(base) && '&' !in a && '#' !in a && '&' !in b && '#' !in b && '#' in u
    requires Pair(a).Some? && Pair(a).value.0 == "url" && Pair(b).Some? && Pair(b).value.0 == "exp"
    requires text == Join([a, b, Segment("uid", u)] + rest, '&')
    ensures |Get(Query(base + ("?" + text)), "uid")| < |u|
  {
    var parts, v := [a, b, Segment("uid", u)] + rest, u[..IndexOf(u, '#')];
    CutSegment(u);
    UidSegmentHas(u, '#');
    HashCuts(base, parts, text);
    assert parts[..2] + [Segment("uid", v)] == [a, b, Segment("uid", v)] + [];
    UidInQuery(a, b, v, []);
    UidFound(v);
  }

  lemma UidSegmentHas(u: string, d: char)
    requires d in u
    ensures d in Segment("uid", u)
  {
  }

  lemma ThreeAndRest(a: string, b: string, c: string, rest: seq<string>, d: char)
    requires d != '&' && d !in a && d !in b && d !in c && forall k :: 0 <= k < |rest| ==> d !in rest[k]
    ensures d !in Join([a, b, c] + rest, '&')
  {
    var parts := [a, b, c] + rest;
    forall k | 0 <= k < |parts| ensures d !in parts[k] {
      assert parts[k] == if k == 0 then a else if k == 1 then b else if k == 2 then c else rest[k - 3];
    }
    JoinAvoids(parts, '&', d);
  }

  lemma PlainQuery(base: string, text: string)
    requires IsBase(base) && '#' !in text
    ensures Query(base + ("?" + text)) == Split(text, '&')
  {
    QueryOfLink(base, text);
  }

  lemma UidSegmentAvoids(u: string, d: char)
    requires d !in u && d != '=' && d !in "uid"
    ensures d !in Segment("uid", u)
  {
  }

  lemma PlainUidFound(base: string, a: string, b: string, u: string, rest: seq<string>, text: string)
    requires IsBase(base) && '&' !in a && '#' !in a && '&' !in b && '#' !in b && '#' !in u
    requires Pair(a).Some? && Pair(a).value.0 == "url" && Pair(b).Some? && Pair(b).value.0 == "exp"
    requires Find(PartsOf(rest, '&'), "uid") == None && forall k :: 0 <= k < |rest| ==> '#' !in rest[k]
    requires text == Join([a, b, Segment("uid", u)] + rest, '&')
    ensures Query(base + ("?" + text)) == Split(text, '&')
    ensures Find(Split(text, '&'), "uid") == Find(Split(Segment("uid", u), '&'), "uid")
  {
    UidSegmentAvoids(u, '#');
    ThreeAndRest(a, b, Segment("uid", u), rest, '#');
    UidInQuery(a, b, u, rest);
    PlainQuery(base, text);
  }

  /** The user id read from a link whose user id needs escaping is never that user id. */
  lemma RawUidIsLost(base: string, a: string, b: string, u: string, rest: seq<string>)
    requires IsBase(base) && '&' !in a && '#' !in a && '&' !in b && '#' !in b
    requires Pair(a).Some? && Pair(a).value.0 == "url" && Pair(b).Some? && Pair(b).value.0 == "exp"
    requires Find(PartsOf(rest, '&'), "uid") == None && forall k :: 0 <= k < |rest| ==> '#' !in rest[k]
    requires u != "" && !Intact(u)
    ensures TrimSpace(Get(Query(base + ("?" + Join([a, b, Segment("uid", u)] + rest, '&'))), "uid")) != u
  {
    if '#' in u {
      HashedUidIsLost(base, a, b, u, rest, Join([a, b, Segment("uid", u)] + rest, '&'));
    } else {
      PlainUidFound(base, a, b, u, rest, Join([a, b, Segment("uid", u)] + rest, '&'));
      UidFound(u);
    }
    TrimShrinks(Get(Query(base + ("?" + Join([a, b, Segment("uid", u)] + rest, '&'))), "uid"));
  }

  function AfterUid(hdr: string, sig: string): seq<string> {
    [Segment("sig", sig)] + if hdr != "" then [Segment("hdr", hdr)] else []
  }

  lemma LinkAroundUid(mac: string -> string, base: string, target: string, p: Params)
    ensures ProxyUrl(mac, base, target, p) == base + ("?" + Join(
      [Segment("url", Escape(target)), Segment("exp", p.exp), Segment("uid", p.uid)]
      + AfterUid(p.hdr, Signature(mac, target, p.uid, p.exp)), '&'))
  {
    var sig := Signature(mac, target, p.uid, p.exp);
    assert LinkSegments(target, p, sig)
      == [Segment("url", Escape(target)), Segment("exp", p.exp), Segment("uid", p.uid)] + AfterUid(p.hdr, sig);
  }

  lemma EscapedUidIsLost(mac: string -> string, base: string, target: string, p: Params, exp: int)
    requires IsMac(mac) && IsBase(base) && GoodTarget(target) && InInt64(exp) && p.exp == FormatInt(exp)
    requires p.uid != "" && Transparent(p.hdr) && !Intact(p.uid)
    ensures TrimSpace(Get(Query(ProxyUrl(mac, base, target, p)), "uid")) != p.uid
  {
    var sig := Signature(mac, target, p.uid, p.exp);
    assert Gives(Segment("url", Escape(target)), "url", target) && Gives(Segment("exp", p.exp), "exp", p.exp) by {
      Names();
      EscapedGives("url", target);
      CanonicalIsPlain(exp);
      TransparentCarries(p.exp);
      SegmentCarries("exp", p.exp, p.exp);
    }
    assert Transparent(sig) by { SignatureIsSafe(mac, target, p.uid, p.exp); }
    OthersHaveNoUid(sig, p.hdr);
    RawUidIsLost(base, Segment("url", Escape(target)), Segment("exp", p.exp), p.uid, AfterUid(p.hdr, sig));
    LinkAroundUid(mac, base, target, p);
  }

  /** A rewritten link brings its user id back to the proxy exactly when the id is not empty and has none of the
      characters that reading a query changes and none that a request cannot carry. */
  lemma ProxiedUidKeptIff(mac: string -> string, base: string, target: string, p: Params, exp: int, now: int)
    requires IsMac(mac) && IsBase(base) && GoodTarget(target) && now <= exp && InInt64(exp) && p.exp == FormatInt(exp)
    requires Transparent(p.hdr)
    ensures Serve(mac, ProxyUrl(mac, base, target, p), now) == Some((target, p)) <==>
      p.uid != "" && Transparent(p.uid)
  {
    if p.uid == "" {
      assert ExtractSigned(Query(ProxyUrl(mac, base, target, p))).Some? ==>
        ExtractSigned(Query(ProxyUrl(mac, base, target, p))).value.uid != "";
    } else if Transparent(p.uid) {
      ProxiedLinkPasses(mac, base, target, p, exp, now);
    } else if !Visible(p.uid) {
      InvisibleLink(mac, base, target, p);
    } else {
      EscapedUidIsLost(mac, base, target, p, exp);
    }
  }

  // ---- links that do not pass ----

  lemma MessageTellsUid(target: string, uid: string, other: string, exp: string)
    requires Message(target, uid, exp) == Message(target, other, exp)
    ensures uid == other
  {
    var m, n := Message(target, uid, exp), Message(target, other, exp);
    assert m[|target| + 1..][..|uid|] == uid && n[|target| + 1..][..|other|] == other;
  }

  /** When another user id is read than was put in, the signature does not fit. */
  lemma OtherUidIsRefused(
      mac: string -> string, base: string, target: string, p: Params, uid: string, exp: int, now: int)
    requires IsMac(mac) && IsBase(base) && GoodTarget(target) && InInt64(exp) && p.exp == FormatInt(exp)
    requires Transparent(p.hdr)
    requires Carries(p.uid, uid) && IsTrimmed(uid) && uid != p.uid
    requires Separates(mac, Message(target, p.uid, p.exp), Message(target, uid, p.exp))
    ensures Get(Query(ProxyUrl(mac, base, target, p)), "uid") == uid
    ensures Serve(mac, ProxyUrl(mac, base, target, p), now) == None
  {
    CanonicalIsPlain(exp);
    TransparentCarries(p.exp);
    TransparentCarries(p.hdr);
    ProxiedLinkReads(mac, base, target, p, p.exp, uid);
    TrimSpaceFacts(target);
    TrimSpaceFacts(uid);
    SignatureIsSafe(mac, target, p.uid, p.exp);
    TrimSpaceFacts(Signature(mac, target, p.uid, p.exp));
    if Signature(mac, target, p.uid, p.exp) == Signature(mac, target, uid, p.exp) {
      SignatureDecides(mac, Message(target, p.uid, p.exp), Message(target, uid, p.exp));
      MessageTellsUid(target, p.uid, uid, p.exp);
    }
  }

  /** When the expiry text is not the canonical form of what is read, the signature does not fit. */
  lemma OtherExpiryIsRefused(mac: string -> string, base: string, target: string, p: Params, exp: int, now: int)
    requires IsMac(mac) && IsBase(base) && GoodTarget(target)
    requires Transparent(p.uid) && p.uid != "" && IsTrimmed(p.uid) && Transparent(p.hdr)
    requires Transparent(p.exp) && IsTrimmed(p.exp) && ParseInt(p.exp) == Some(exp) && p.exp != FormatInt(exp)
    requires Separates(mac, Message(target, p.uid, p.exp), Message(target, p.uid, FormatInt(exp)))
    ensures Serve(mac, ProxyUrl(mac, base, target, p), now) == None
  {
    TrimSpaceFacts(target);
    TrimSpaceFacts(p.uid);
    TrimSpaceFacts(p.exp);
    ProxiedLinkParses(mac, base, target, p);
    ProxiedLinkPassesIff(mac, base, target, p, now);
  }

  /** A target with white space around it is read without it, and the signature does not fit. */
  lemma PaddedTargetIsRefused(mac: string -> string, base: string, target: string, p: Params, exp: int, now: int)
    requires IsMac(mac) && IsBase(base) && IsBytes(target) && !IsTrimmed(target) && InInt64(exp)
    requires p.exp == FormatInt(exp)
    requires Transparent(p.uid) && p.uid != "" && IsTrimmed(p.uid) && Transparent(p.hdr)
    requires Separates(mac, Message(target, p.uid, p.exp), Message(TrimSpace(target), p.uid, p.exp))
    ensures Serve(mac, ProxyUrl(mac, base, target, p), now) == None
  {
    CanonicalIsPlain(exp);
    TrimSpaceFacts(p.uid);
    ProxiedLinkParses(mac, base, target, p);
    ProxiedLinkPassesIff(mac, base, target, p, now);
  }

  lemma Literals()
    ensures FormatInt(9) == "9" && FormatInt(7) == "7" && ParseInt("007") == Some(7)
    ensures Transparent("u") && Transparent("007") && Transparent("")
    ensures GoodTarget("http://h/x")
  {
    assert "007"[..2] == "00" && "00"[..1] == "0" && "0"[..0] == "";
    assert DigitsValue("00") == 0 && DigitsValue("007") == 7;
    assert "007"[1..] == "07" && "07"[1..] == "7" && "7"[1..] == "";
    assert LeadingDigits("7") == 1 && LeadingDigits("07") == 2;
  }

  lemma PlusIsBlank()
    ensures Carries("a+b", "a b") && IsTrimmed("a b")
  {
    assert "a+b"[1..] == "+b" && "+b"[1..] == "b" && "b"[1..] == "";
    assert Unescape("b") == Some("b") by { assert ['b'] + "" == "b"; }
    assert Unescape("+b") == Some(" b") by { assert [' '] + "b" == " b"; }
    assert ['a'] + " b" == "a b";
  }

  /** The user id "a+b" comes back as "a b", and the link is refused. */
  lemma PlusUidIsLost(mac: string -> string, base: string, now: int)
    requires IsMac(mac) && IsBase(base)
    requires Separates(mac, Message("http://h/x", "a+b", "9"), Message("http://h/x", "a b", "9"))
    ensures
      var link := ProxyUrl(mac, base, "http://h/x", Params("a+b", "9", ""));
      Get(Query(link), "uid") == "a b" && Serve(mac, link, now) == None
  {
    Literals();
    PlusIsBlank();
    OtherUidIsRefused(mac, base, "http://h/x", Params("a+b", "9", ""), "a b", 9, now);
  }

  /** A user id with a line break makes a link that cannot be requested. */
  lemma LineBreakUidIsRefused(mac: string -> string, base: string, now: int)
    ensures Serve(mac, ProxyUrl(mac, base, "http://h/x", Params("a\nb", "9", "")), now) == None
  {
    assert "a\nb"[1] as int == 10;
    InvisibleLink(mac, base, "http://h/x", Params("a\nb", "9", ""));
  }

  /** An expiry text with leading zeros is refused. */
  lemma PaddedExpiryIsRefused(mac: string -> string, base: string, now: int)
    requires IsMac(mac) && IsBase(base)
    requires Separates(mac, Message("http://h/x", "u", "007"), Message("http://h/x", "u", "7"))
    ensures Serve(mac, ProxyUrl(mac, base, "http://h/x", Params("u", "007", "")), now) == None
  {
    Literals();
    OtherExpiryIsRefused(mac, base, "http://h/x", Params("u", "007", ""), 7, now);
  }
}
