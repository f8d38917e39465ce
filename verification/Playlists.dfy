/** rewriter.go: an HLS playlist is rewritten line by line; line classes as in section 4.1 of RFC 8216. */
module Playlists {
  import opened Hls
  import opened Text
  import opened Urls
  import opened Wrappers

  const URI := "URI=\""

  /** strings.Index(s, t), |s| when it does not occur. */
  function IndexOfText(s: string, t: string): (i: nat)
    requires t != ""
    ensures i <= |s| && (i < |s| ==> t <= s[i..])
    ensures forall j :: 0 <= j < i ==> !(t <= s[j..])
  {
    if s == "" || t <= s then 0
    else
      var i := 1 + IndexOfText(s[1..], t);
      assert forall j :: 1 <= j <= |s| ==> s[1..][j - 1..] == s[j..];
      i
  }

  // ---- references ----

  /** What applying f to the first quoted URI of a tag makes of its line. */
  function OnTag(line: string, f: string -> string): string {
    var start := IndexOfText(line, URI);
    if start == |line| then line
    else
      var s := start + 5;
      var rest := line[s..];
      var e := IndexOf(rest, '"');
      if e == |rest| then line else line[..s] + (f(rest[..e]) + rest[e..])
  }

  /** Blank, a comment or a tag. */
  predicate IsTag(line: string) {
    TrimSpace(line) == "" || TrimSpace(line)[0] == '#'
  }

  /** What applying f to the reference of a line makes of the line. */
  function OnReference(line: string, f: string -> string): string {
    if !IsTag(line) then f(TrimSpace(line))
    else if IndexOfText(TrimSpace(line), URI) < |TrimSpace(line)| then OnTag(line, f)
    else line
  }

  function OnLines(lines: seq<string>, f: string -> string): (out: seq<string>)
    ensures |out| == |lines| && forall k :: 0 <= k < |lines| ==> out[k] == OnReference(lines[k], f)
  {
    if lines == [] then [] else OnLines(lines[..|lines| - 1], f) + [OnReference(lines[|lines| - 1], f)]
  }

  /** A playlist with f applied to each of its references. */
  function OnReferences(body: string, f: string -> string): string {
    Join(OnLines(Split(body, '\n'), f), '\n')
  }

  // ---- the rewriter ----

  /** What the rewriter puts in place of a reference. */
  function Proxied(
      mac: string -> string, resolve: (string, string) -> string, baseUrl: string, proxyBase: string, p: Params)
      : string -> string
  {
    (ref: string) => ProxyUrl(mac, proxyBase, resolve(baseUrl, ref), p)
  }

  method RewriteUriTag(
      line: string, mac: string -> string, resolve: (string, string) -> string, baseUrl: string, proxyBase: string,
      p: Params)
    returns (out: string)
    ensures out == OnTag(line, Proxied(mac, resolve, baseUrl, proxyBase, p))
  {
    var start := IndexOfText(line, URI);
    if start == |line| {
      return line;
    }
    start := start + 5;
    var rest := line[start..];
    var end := IndexOf(rest, '"');
    if end == |rest| {
      return line;
    }
    var newUri := ProxyUrl(mac, proxyBase, resolve(baseUrl, rest[..end]), p);
    return line[..start] + (newUri + rest[end..]);
  }

  /** RewriteM3U8. */
  method RewriteM3U8(
      body: string, mac: string -> string, resolve: (string, string) -> string, baseUrl: string, proxyBase: string,
      p: Params)
    returns (out: string)
    ensures out == OnReferences(body, Proxied(mac, resolve, baseUrl, proxyBase, p))
  {
    var lines := Split(body, '\n');
    var done: seq<string> := [];
    var i := 0;
    while i < |lines|
      invariant 0 <= i <= |lines|
      invariant done == OnLines(lines[..i], Proxied(mac, resolve, baseUrl, proxyBase, p))
    {
      var line := lines[i];
      var trim := TrimSpace(line);
      assert lines[..i + 1][..i] == lines[..i];
      if trim == "" || trim[0] == '#' {
        if IndexOfText(trim, URI) < |trim| {
          line := RewriteUriTag(line, mac, resolve, baseUrl, proxyBase, p);
        }
        done := done + [line];
      } else {
        done := done + [ProxyUrl(mac, proxyBase, resolve(baseUrl, trim), p)];
      }
      i := i + 1;
    }
    assert lines[..i] == lines;
    out := Join(done, '\n');
  }

  // ---- where white space is ----

  lemma SliceOfSlice(s: string, n: nat, t: string, r: nat)
    requires n <= |s| && t == s[n..] && r <= |t|
    ensures t[..r] == s[n..n + r] && forall k :: n <= k < |s| ==> s[k] == t[k - n]
  {
  }

  /** Trimming takes a run of white space off either end. */
  lemma TrimWindow(s: string) returns (n: nat, m: nat)
    ensures n <= m <= |s| && TrimSpace(s) == s[n..m]
    ensures forall k :: 0 <= k < n || m <= k < |s| ==> IsSpace(s[k])
    ensures n < m ==> !IsSpace(s[n]) && !IsSpace(s[m - 1])
  {
    TrimLeftFacts(s);
    n := LeftBlanks(s);
    m := RightWindow(s, n, TrimLeft(s));
  }

  lemma RightWindow(s: string, n: nat, t: string) returns (m: nat)
    requires n <= |s| && t == s[n..] && (t == "" || !IsSpace(t[0]))
    ensures n <= m <= |s| && TrimRight(t) == s[n..m]
    ensures forall k :: m <= k < |s| ==> IsSpace(s[k])
    ensures n < m ==> !IsSpace(s[n]) && !IsSpace(s[m - 1])
  {
    TrimRightFacts(t);
    var r := |TrimRight(t)|;
    m := n + r;
    SliceOfSlice(s, n, t, r);
    assert TrimRight(t) == t[..r];
    if r > 0 {
      assert TrimRight(t)[r - 1] == t[r - 1] == s[m - 1];
    }
  }

  /** A text begins, after its white space, with its first other character. */
  lemma FirstInk(s: string, k: nat)
    requires k < |s| && !IsSpace(s[k]) && forall j :: 0 <= j < k ==> IsSpace(s[j])
    ensures TrimSpace(s) != "" && TrimSpace(s)[0] == s[k]
  {
    var n, m := TrimWindow(s);
    assert n <= k && k < m;
    assert n == k;
  }

  /** Where a text occurs. */
  predicate At(s: string, t: string, k: nat) {
    k <= |s| && t <= s[k..]
  }

  lemma UriInk(s: string, k: nat)
    requires At(s, URI, k)
    ensures k + 5 <= |s| && forall j :: k <= j < k + 5 ==> s[j] == URI[j - k] && !IsSpace(s[j])
  {
    assert forall j :: 0 <= j < 5 ==> s[k..][j] == URI[j];
    assert forall j :: k <= j < k + 5 ==> s[j] == s[k..][j - k];
  }

  lemma UriAt(s: string, k: nat)
    requires k + 5 <= |s| && forall j :: k <= j < k + 5 ==> s[j] == URI[j - k]
    ensures At(s, URI, k)
  {
    assert s[k..][..5] == URI;
  }

  lemma UriFound(s: string, k: nat)
    requires At(s, URI, k)
    ensures IndexOfText(s, URI) <= k && IndexOfText(s, URI) < |s|
  {
    UriInk(s, k);
  }

  lemma UriInWindow(s: string, n: nat, m: nat, t: string, k: nat)
    requires n <= m <= |s| && t == s[n..m] && n <= k && k + 5 <= m
    ensures At(s, URI, k) <==> At(t, URI, k - n)
  {
    assert forall j :: k <= j < k + 5 ==> s[j] == t[j - n];
    if At(s, URI, k) {
      UriInk(s, k);
      UriAt(t, k - n);
    }
    if At(t, URI, k - n) {
      UriInk(t, k - n);
      forall j | k <= j < k + 5 ensures s[j] == URI[j - k] {
        assert t[j - n] == URI[j - n - (k - n)];
      }
      UriAt(s, k);
    }
  }

  /** Looking for a quoted URI in a line or in its trimmed text is the same. */
  lemma UriInTrimmed(line: string)
    ensures IndexOfText(line, URI) < |line| <==> IndexOfText(TrimSpace(line), URI) < |TrimSpace(line)|
  {
    var n, m := TrimWindow(line);
    var trim := TrimSpace(line);
    var i, j := IndexOfText(line, URI), IndexOfText(trim, URI);
    if i < |line| {
      assert At(line, URI, i);
      UriInk(line, i);
      assert !IsSpace(line[i]) && !IsSpace(line[i + 4]);
      UriInWindow(line, n, m, trim, i);
      UriFound(trim, i - n);
    }
    if j < |trim| {
      assert At(trim, URI, j);
      UriInk(trim, j);
      UriInWindow(line, n, m, trim, j + n);
      UriFound(line, j + n);
    }
  }

  lemma Glued(pre: string, rest: string)
    ensures (pre + rest)[..|pre|] == pre && (pre + rest)[|pre|..] == rest
  {
  }

  lemma QuoteAfter(uri: string, post: string)
    requires post != "" && post[0] == '"' && '"' !in uri
    ensures IndexOf(uri + post, '"') == |uri|
  {
    assert (uri + post)[|uri|] == '"';
    assert forall j :: 0 <= j < |uri| ==> (uri + post)[j] == uri[j];
  }

  /** A tag's text up to the opening quote, its URI, and the rest: only the URI changes. */
  lemma TagParts(pre: string, uri: string, post: string, f: string -> string, line: string)
    requires line == pre + (uri + post) && post != "" && post[0] == '"' && '"' !in uri
    requires |pre| >= 5 && IndexOfText(line, URI) == |pre| - 5
    ensures OnTag(line, f) == pre + (f(uri) + post)
  {
    Glued(pre, uri + post);
    Glued(uri, post);
    QuoteAfter(uri, post);
  }

  /** Whatever follows the opening quote, the quoted URI is found at the same place. */
  lemma SameStart(pre: string, a: string, b: string)
    requires |pre| >= 5 && IndexOfText(pre + a, URI) == |pre| - 5
    ensures IndexOfText(pre + b, URI) == |pre| - 5
  {
    var s, t := pre + a, pre + b;
    var k := |pre| - 5;
    assert At(s, URI, k);
    UriInk(s, k);
    UriAt(t, k);
    forall j | 0 <= j < k ensures !(URI <= t[j..]) {
      if At(t, URI, j) {
        UriInk(t, j);
        UriAt(s, j);
      }
    }
  }

  // ---- what a rewrite leaves alone ----

  /** A tag with a URI attribute in quotes: `pre` runs up to its opening quote. */
  predicate Quotes(line: string, pre: string, uri: string, post: string) {
    && line == pre + (uri + post)
    && post != "" && post[0] == '"' && '"' !in uri
    && |pre| >= 5 && IndexOfText(line, URI) == |pre| - 5
  }

  predicate HasUri(line: string) {
    var start := IndexOfText(line, URI);
    start < |line| && start + 5 <= |line| && '"' in line[start + 5..]
  }

  lemma CutAt(s: string, i: nat)
    requires i <= |s|
    ensures s == s[..i] + s[i..]
  {
  }

  lemma QuotedParts(line: string) returns (pre: string, uri: string, post: string)
    requires HasUri(line)
    ensures Quotes(line, pre, uri, post)
  {
    var start := IndexOfText(line, URI) + 5;
    var rest := line[start..];
    var e := IndexOf(rest, '"');
    pre, uri, post := line[..start], rest[..e], rest[e..];
    CutAt(line, start);
    CutAt(rest, e);
  }

  /** A tag with a quoted URI changes only inside its first one. */
  lemma TagChangesOnlyUri(line: string, f: string -> string) returns (pre: string, uri: string, post: string)
    requires IsTag(line) && HasUri(line)
    ensures Quotes(line, pre, uri, post) && OnReference(line, f) == pre + (f(uri) + post)
  {
    pre, uri, post := QuotedParts(line);
    TagParts(pre, uri, post, f, line);
    UriInTrimmed(line);
  }

  /** Blank lines, comments and tags without a quoted URI stay as they are; every other line that is no tag
      becomes what stands for its trimmed reference. */
  lemma OtherLines(line: string, f: string -> string)
    ensures IsTag(line) && !HasUri(line) ==> OnReference(line, f) == line
    ensures !IsTag(line) ==> OnReference(line, f) == f(TrimSpace(line))
  {
    if IndexOfText(line, URI) < |line| {
      assert At(line, URI, IndexOfText(line, URI));
      UriInk(line, IndexOfText(line, URI));
    }
    UriInTrimmed(line);
  }

  /** The same by characters: blank lines stay, and so do comments and tags in which the attribute does not occur;
      a line that begins, after white space, with anything but # becomes what stands for its trimmed text. */
  lemma LineInCharacters(line: string, f: string -> string, k: nat)
    requires k <= |line| && forall j :: 0 <= j < k ==> line[j] == ' ' || 9 <= line[j] as int <= 13
    requires k < |line| ==> line[k] != ' ' && !(9 <= line[k] as int <= 13)
    ensures k == |line| ==> OnReference(line, f) == line
    ensures k < |line| && line[k] == '#' && (forall j :: 0 <= j < |line| ==> !("URI=\"" <= line[j..])) ==>
      OnReference(line, f) == line
    ensures k < |line| && line[k] != '#' ==> OnReference(line, f) == f(TrimSpace(line))
  {
    OtherLines(line, f);
    if k < |line| {
      FirstInk(line, k);
    } else {
      var n, m := TrimWindow(line);
    }
  }

  /** A tag by characters: exactly the text between the quotes of its first URI attribute is replaced. */
  lemma TagInCharacters(pre: string, uri: string, post: string, f: string -> string, k: nat)
    requires k < |pre| && pre[k] == '#' && forall j :: 0 <= j < k ==> pre[j] == ' ' || 9 <= pre[j] as int <= 13
    requires '"' !in uri && forall j :: 0 <= j < |pre| ==> !("URI=\"" <= (pre + "URI=\"")[j..])
    ensures OnReference(pre + "URI=\"" + (uri + ("\"" + post)), f) == pre + "URI=\"" + (f(uri) + ("\"" + post))
  {
    var head := pre + URI;
    var line := head + (uri + ("\"" + post));
    assert line[k] == '#';
    FirstInk(line, k);
    UriAt(head, |pre|);
    assert IndexOfText(head + "", URI) == |head| - 5 by {
      assert head + "" == head;
      assert At(head, URI, |pre|);
    }
    SameStart(head, "", uri + ("\"" + post));
    TagParts(head, uri, "\"" + post, f, line);
    UriInTrimmed(line);
  }

  /** Line breaks separate the lines: a playlist is its first line rewritten, and the rest. */
  lemma FirstLine(line: string, rest: string, f: string -> string)
    requires '\n' !in line
    ensures OnReferences(line, f) == OnReference(line, f)
    ensures OnReferences(line + "\n" + rest, f) == OnReference(line, f) + "\n" + OnReferences(rest, f)
  {
    SplitNone(line, '\n');
    SplitFirst(line, '\n', rest);
    var lines := Split(rest, '\n');
    assert OnLines([line] + lines, f) == [OnReference(line, f)] + OnLines(lines, f);
    assert ([OnReference(line, f)] + OnLines(lines, f))[1..] == OnLines(lines, f);
  }

  /** What a rewrite may put on a line of its own. */
  predicate FitsLine(text: string) {
    text != "" && IsTrimmed(text) && text[0] != '#' && '\n' !in text
  }

  ghost predicate FitsLines(g: string -> string) {
    forall ref :: FitsLine(g(ref))
  }

  /** What a rewrite may put in place of any reference without breaking the playlist. */
  ghost predicate Fits(g: string -> string) {
    forall ref :: FitsLine(g(ref)) && '"' !in g(ref)
  }

  /** A tag is known by what comes before its first visible part ends. */
  lemma HeadDecides(line: string, out: string, k: nat)
    requires IsTag(line) && k < |line| && k < |out| && !IsSpace(line[k])
    requires forall j :: 0 <= j <= k ==> out[j] == line[j]
    ensures IsTag(out)
  {
    var n, m := TrimWindow(line);
    assert n <= k < m;
    FirstInk(line, n);
    FirstInk(out, n);
  }

  lemma PrefixSame(pre: string, a: string, b: string)
    ensures forall j :: 0 <= j < |pre| ==> (pre + a)[j] == (pre + b)[j]
  {
  }

  lemma TagStaysTag(line: string, pre: string, uri: string, post: string, text: string)
    requires IsTag(line) && Quotes(line, pre, uri, post)
    ensures IsTag(pre + (text + post)) && IndexOfText(pre + (text + post), URI) == |pre| - 5
  {
    SameStart(pre, uri + post, text + post);
    PrefixSame(pre, uri + post, text + post);
    assert At(line, URI, |pre| - 5);
    UriInk(line, |pre| - 5);
    HeadDecides(line, pre + (text + post), |pre| - 5);
  }

  lemma QuotesAgain(line: string, pre: string, uri: string, post: string, text: string)
    requires IsTag(line) && Quotes(line, pre, uri, post) && '"' !in text
    ensures Quotes(pre + (text + post), pre, text, post)
  {
    TagStaysTag(line, pre, uri, post, text);
  }

  lemma ComposeTag(line: string, g: string -> string, h: string -> string, both: string -> string)
    requires IsTag(line) && HasUri(line) && Fits(g) && forall ref :: both(ref) == h(g(ref))
    ensures OnReference(OnReference(line, g), h) == OnReference(line, both)
  {
    var pre, uri, post := TagChangesOnlyUri(line, g);
    var out := pre + (g(uri) + post);
    assert FitsLine(g(uri)) && '"' !in g(uri);
    TagStaysTag(line, pre, uri, post, g(uri));
    QuotesAgain(line, pre, uri, post, g(uri));
    TagParts(pre, g(uri), post, h, out);
    TagParts(pre, uri, post, both, line);
    UriInTrimmed(out);
    UriInTrimmed(line);
  }

  lemma ComposeLine(line: string, g: string -> string, h: string -> string, both: string -> string)
    requires Fits(g) && forall ref :: both(ref) == h(g(ref))
    ensures OnReference(OnReference(line, g), h) == OnReference(line, both)
  {
    OtherLines(line, g);
    OtherLines(line, h);
    OtherLines(line, both);
    if !IsTag(line) {
      var text := g(TrimSpace(line));
      assert FitsLine(text);
      TrimSpaceFacts(text);
    } else if HasUri(line) {
      ComposeTag(line, g, h, both);
    }
  }

  lemma NoBreakAdded(line: string, g: string -> string)
    requires FitsLines(g) && '\n' !in line
    ensures '\n' !in OnReference(line, g)
  {
    OtherLines(line, g);
    if !IsTag(line) {
      assert FitsLine(g(TrimSpace(line)));
    } else if HasUri(line) {
      var pre, uri, post := TagChangesOnlyUri(line, g);
      assert FitsLine(g(uri));
    }
  }

  /** The output has as many lines as the playlist, each of them its line with the reference replaced. */
  lemma LinesKept(body: string, g: string -> string)
    requires FitsLines(g)
    ensures Split(OnReferences(body, g), '\n') == OnLines(Split(body, '\n'), g)
    ensures |Split(OnReferences(body, g), '\n')| == |Split(body, '\n')|
  {
    var lines := Split(body, '\n');
    var out := OnLines(lines, g);
    forall k | 0 <= k < |out| ensures '\n' !in out[k] {
      NoBreakAdded(lines[k], g);
    }
    SplitJoined(out, '\n');
  }

  /** Replacing references twice is replacing them once by the composition. */
  lemma ComposeReferences(body: string, g: string -> string, h: string -> string, both: string -> string)
    requires Fits(g) && forall ref :: both(ref) == h(g(ref))
    ensures OnReferences(OnReferences(body, g), h) == OnReferences(body, both)
  {
    var lines := Split(body, '\n');
    LinesKept(body, g);
    forall k | 0 <= k < |lines| ensures OnReference(OnReference(lines[k], g), h) == OnReference(lines[k], both) {
      ComposeLine(lines[k], g, h, both);
    }
    assert OnLines(OnLines(lines, g), h) == OnLines(lines, both);
  }

  // ---- rewriting with signed links ----

  /** Parameters that a query and a quoted URI carry as they are. */
  predicate PlainParams(p: Params) {
    && Transparent(p.uid) && Transparent(p.exp) && Transparent(p.hdr)
    && '"' !in p.uid && '"' !in p.exp && '"' !in p.hdr
  }

  predicate PlainBase(base: string) {
    IsBase(base) && base != "" && '"' !in base
  }

  lemma LinkUnquoted(mac: string -> string, proxyBase: string, target: string, p: Params)
    requires IsMac(mac) && '"' !in proxyBase && '"' !in p.exp && '"' !in p.hdr
    ensures '"' in ProxyUrl(mac, proxyBase, target, p) <==> '"' in p.uid
  {
    var sig := Signature(mac, target, p.uid, p.exp);
    if '"' in p.uid {
      RawInLink(mac, proxyBase, target, p, '"');
    } else {
      SignatureIsSafe(mac, target, p.uid, p.exp);
      EscapedVisible(target);
      JoinAvoids(LinkSegments(target, p, sig), '&', '"');
    }
  }

  lemma VisibleFits(text: string)
    requires Visible(text) && text != "" && text[0] != '#'
    ensures FitsLine(text)
  {
  }

  lemma LinkFits(mac: string -> string, proxyBase: string, target: string, p: Params)
    requires IsMac(mac) && PlainBase(proxyBase) && Transparent(p.uid) && Transparent(p.exp) && Transparent(p.hdr)
    ensures FitsLine(ProxyUrl(mac, proxyBase, target, p))
  {
    ProxiedLinkVisible(mac, proxyBase, target, p);
    assert ProxyUrl(mac, proxyBase, target, p)[0] == proxyBase[0];
    VisibleFits(ProxyUrl(mac, proxyBase, target, p));
  }

  lemma ProxiedFitsLines(
      mac: string -> string, resolve: (string, string) -> string, baseUrl: string, proxyBase: string, p: Params)
    requires IsMac(mac) && PlainBase(proxyBase) && Transparent(p.uid) && Transparent(p.exp) && Transparent(p.hdr)
    ensures FitsLines(Proxied(mac, resolve, baseUrl, proxyBase, p))
  {
    forall ref ensures FitsLine(Proxied(mac, resolve, baseUrl, proxyBase, p)(ref)) {
      LinkFits(mac, proxyBase, resolve(baseUrl, ref), p);
    }
  }

  lemma ProxiedFits(
      mac: string -> string, resolve: (string, string) -> string, baseUrl: string, proxyBase: string, p: Params)
    requires IsMac(mac) && PlainBase(proxyBase) && PlainParams(p)
    ensures Fits(Proxied(mac, resolve, baseUrl, proxyBase, p))
  {
    var g := Proxied(mac, resolve, baseUrl, proxyBase, p);
    ProxiedFitsLines(mac, resolve, baseUrl, proxyBase, p);
    forall ref ensures FitsLine(g(ref)) && '"' !in g(ref) {
      LinkUnquoted(mac, proxyBase, resolve(baseUrl, ref), p);
    }
  }

  /** The target a link stands for. */
  function TargetOf(link: string): string {
    Get(Query(link), "url")
  }

  /** Replacing every link of a rewritten playlist by its target gives the original playlist with each
      reference resolved. */
  lemma DeproxiedIsResolved(
      mac: string -> string, resolve: (string, string) -> string, baseUrl: string, proxyBase: string, p: Params,
      body: string)
    requires IsMac(mac) && PlainBase(proxyBase) && PlainParams(p)
    requires forall ref :: IsBytes(resolve(baseUrl, ref))
    ensures OnReferences(OnReferences(body, Proxied(mac, resolve, baseUrl, proxyBase, p)), TargetOf)
      == OnReferences(body, (ref: string) => resolve(baseUrl, ref))
    ensures |Split(OnReferences(body, Proxied(mac, resolve, baseUrl, proxyBase, p)), '\n')| == |Split(body, '\n')|
  {
    var g := Proxied(mac, resolve, baseUrl, proxyBase, p);
    ProxiedFits(mac, resolve, baseUrl, proxyBase, p);
    forall ref ensures TargetOf(g(ref)) == resolve(baseUrl, ref) {
      ProxiedLinkParses(mac, proxyBase, resolve(baseUrl, ref), p);
    }
    LinesKept(body, g);
    ComposeReferences(body, g, TargetOf, (ref: string) => resolve(baseUrl, ref));
  }

  // ---- what a player reads ----

  /** The first quoted URI of a line. */
  function QuotedUri(line: string): string
    requires HasUri(line)
  {
    var rest := line[IndexOfText(line, URI) + 5..];
    rest[..IndexOf(rest, '"')]
  }

  /** The reference that a player reads from a line: the trimmed line, or the first quoted URI of a tag. */
  function ReferenceOf(line: string): Option<string> {
    if !IsTag(line) then Some(TrimSpace(line))
    else if HasUri(line) then Some(QuotedUri(line))
    else None
  }

  function ReferencesOf(lines: seq<string>): seq<string> {
    if lines == [] then []
    else
      var before, ref := ReferencesOf(lines[..|lines| - 1]), ReferenceOf(lines[|lines| - 1]);
      if ref.Some? then before + [ref.value] else before
  }

  /** The references of a playlist, in order. */
  function References(body: string): seq<string> {
    ReferencesOf(Split(body, '\n'))
  }

  function Mapped(refs: seq<string>, g: string -> string): (out: seq<string>)
    ensures |out| == |refs| && forall k :: 0 <= k < |refs| ==> out[k] == g(refs[k])
  {
    seq(|refs|, k requires 0 <= k < |refs| => g(refs[k]))
  }

  lemma QuotesRead(line: string, pre: string, uri: string, post: string)
    requires Quotes(line, pre, uri, post)
    ensures HasUri(line) && QuotedUri(line) == uri
  {
    Glued(pre, uri + post);
    Glued(uri, post);
    QuoteAfter(uri, post);
    assert (uri + post)[|uri|] == '"';
  }

  /** From a rewritten tag a player reads the text put in exactly when the text has no quotation mark. */
  lemma TagReadsBackIff(line: string, f: string -> string)
    requires IsTag(line) && HasUri(line)
    ensures ReferenceOf(OnReference(line, f)).Some?
    ensures ReferenceOf(OnReference(line, f)) == Some(f(QuotedUri(line))) <==> '"' !in f(QuotedUri(line))
  {
    var pre, uri, post := TagChangesOnlyUri(line, f);
    QuotesRead(line, pre, uri, post);
    var text := f(uri);
    var out := pre + (text + post);
    TagStaysTag(line, pre, uri, post, text);
    if '"' !in text {
      QuotesAgain(line, pre, uri, post, text);
      QuotesRead(out, pre, text, post);
    } else {
      Glued(pre, text + post);
      EarlierQuote(text, post);
    }
  }

  lemma EarlierQuote(text: string, post: string)
    requires '"' in text
    ensures IndexOf(text + post, '"') < |text| && '"' in text + post
  {
    var k :| 0 <= k < |text| && text[k] == '"';
    assert (text + post)[k] == '"';
  }

  /** A tag that gives a reference. */
  predicate IsQuoting(line: string) {
    IsTag(line) && HasUri(line)
  }

  lemma OwnLineReadsBack(line: string, g: string -> string)
    requires FitsLine(g(TrimSpace(line))) && !IsTag(line)
    ensures ReferenceOf(OnReference(line, g)) == Some(g(TrimSpace(line)))
  {
    OtherLines(line, g);
    TrimSpaceFacts(g(TrimSpace(line)));
  }

  /** A rewritten line gives a reference exactly when the line gave one, and it is the text put in exactly
      when that is not a quoted text with a quotation mark. */
  lemma ReferenceRewritten(line: string, g: string -> string)
    requires FitsLines(g)
    ensures
      var ref, out := ReferenceOf(line), ReferenceOf(OnReference(line, g));
      && (out.Some? <==> ref.Some?)
      && (ref.Some? ==> (out.value == g(ref.value) <==> !(IsQuoting(line) && '"' in g(ref.value))))
  {
    if !IsTag(line) {
      OwnLineReadsBack(line, g);
    } else if HasUri(line) {
      TagReadsBackIff(line, g);
    } else {
      OtherLines(line, g);
    }
  }

  /** No quoted URI is replaced by a text with a quotation mark. */
  predicate KeepsQuotes(lines: seq<string>, g: string -> string) {
    forall k :: 0 <= k < |lines| && IsQuoting(lines[k]) ==> '"' !in g(QuotedUri(lines[k]))
  }

  lemma AppendedEqual<T>(a: seq<T>, x: T, b: seq<T>, y: T)
    ensures a + [x] == b + [y] <==> a == b && x == y
  {
    if a + [x] == b + [y] {
      assert (a + [x])[..|a|] == a && (b + [y])[..|b|] == b;
      assert (a + [x])[|a|] == x && (b + [y])[|b|] == y;
    }
  }

  lemma KeepsQuotesAppend(before: seq<string>, last: string, g: string -> string)
    ensures KeepsQuotes(before + [last], g) <==>
      KeepsQuotes(before, g) && (IsQuoting(last) ==> '"' !in g(QuotedUri(last)))
  {
    var lines := before + [last];
    assert forall k :: 0 <= k < |before| ==> before[k] == lines[k];
    assert lines[|before|] == last;
  }

  lemma ReferencesAppend(before: seq<string>, last: string)
    ensures ReferencesOf(before + [last])
      == if ReferenceOf(last).Some? then ReferencesOf(before) + [ReferenceOf(last).value] else ReferencesOf(before)
  {
    assert (before + [last])[..|before|] == before;
  }

  lemma MappedAppend(refs: seq<string>, ref: string, g: string -> string)
    ensures Mapped(refs + [ref], g) == Mapped(refs, g) + [g(ref)]
  {
  }

  lemma OnLinesAppend(before: seq<string>, last: string, g: string -> string)
    ensures OnLines(before + [last], g) == OnLines(before, g) + [OnReference(last, g)]
  {
    assert (before + [last])[..|before|] == before;
  }

  lemma {:induction false} ReferencesOnLines(lines: seq<string>, g: string -> string)
    requires FitsLines(g)
    ensures |ReferencesOf(OnLines(lines, g))| == |ReferencesOf(lines)|
    ensures ReferencesOf(OnLines(lines, g)) == Mapped(ReferencesOf(lines), g) <==> KeepsQuotes(lines, g)
  {
    if lines != [] {
      var before, last := lines[..|lines| - 1], lines[|lines| - 1];
      assert lines == before + [last];
      ReferencesOnLines(before, g);
      OneMoreReference(before, last, g);
    }
  }

  lemma OneMoreReference(before: seq<string>, last: string, g: string -> string)
    requires FitsLines(g)
    requires |ReferencesOf(OnLines(before, g))| == |ReferencesOf(before)|
    requires ReferencesOf(OnLines(before, g)) == Mapped(ReferencesOf(before), g) <==> KeepsQuotes(before, g)
    ensures
      var lines := before + [last];
      && |ReferencesOf(OnLines(lines, g))| == |ReferencesOf(lines)|
      && (ReferencesOf(OnLines(lines, g)) == Mapped(ReferencesOf(lines), g) <==> KeepsQuotes(lines, g))
  {
    var ref, out := ReferenceOf(last), ReferenceOf(OnReference(last, g));
    ReferenceRewritten(last, g);
    KeepsQuotesAppend(before, last, g);
    OnLinesAppend(before, last, g);
    ReferencesAppend(before, last);
    ReferencesAppend(OnLines(before, g), OnReference(last, g));
    if ref.Some? {
      MappedAppend(ReferencesOf(before), ref.value, g);
      AppendedEqual(ReferencesOf(OnLines(before, g)), out.value, Mapped(ReferencesOf(before), g), g(ref.value));
      assert IsQuoting(last) ==> ref.value == QuotedUri(last);
    }
  }

  /** A rewritten playlist has as many references as the playlist, and they are the texts put in, one for
      one, exactly when no quoted URI is replaced by a text with a quotation mark. */
  lemma ReferencesRewrittenIff(body: string, g: string -> string)
    requires FitsLines(g)
    ensures |References(OnReferences(body, g))| == |References(body)|
    ensures References(OnReferences(body, g)) == Mapped(References(body), g) <==> KeepsQuotes(Split(body, '\n'), g)
  {
    LinesKept(body, g);
    ReferencesOnLines(Split(body, '\n'), g);
  }

  /** Taken as one line of text, a tag gives back the link that was put into its quoted URI exactly when the
      user id has no quotation mark. */
  lemma TagLinkKeptIff(
      mac: string -> string, resolve: (string, string) -> string, baseUrl: string, proxyBase: string, p: Params,
      line: string)
    requires IsMac(mac) && '"' !in proxyBase && '"' !in p.exp && '"' !in p.hdr && IsTag(line) && HasUri(line)
    ensures
      var g := Proxied(mac, resolve, baseUrl, proxyBase, p);
      ReferenceOf(OnReference(line, g)) == Some(g(QuotedUri(line))) <==> '"' !in p.uid
  {
    TagReadsBackIff(line, Proxied(mac, resolve, baseUrl, proxyBase, p));
    LinkUnquoted(mac, proxyBase, resolve(baseUrl, QuotedUri(line)), p);
  }

  /** Some reference of the playlist is the quoted URI of a tag. */
  predicate QuotesSome(body: string) {
    exists k :: 0 <= k < |Split(body, '\n')| && IsQuoting(Split(body, '\n')[k])
  }

  /** From the rewritten playlist a player reads, in order, one link for each reference, and the proxy serves
      each of them for the resolved reference with the given user, expiry and headers. */
  ghost predicate AllServed(
      mac: string -> string, resolve: (string, string) -> string, baseUrl: string, proxyBase: string, p: Params,
      body: string, now: int)
  {
    var g := Proxied(mac, resolve, baseUrl, proxyBase, p);
    && References(OnReferences(body, g)) == Mapped(References(body), g)
    && forall k :: 0 <= k < |References(body)| ==>
      Serve(mac, g(References(body)[k]), now) == Some((resolve(baseUrl, References(body)[k]), p))
  }

  /** Parameters of a link that is not over, apart from the user id. */
  ghost predicate Current(p: Params, exp: int, now: int) {
    now <= exp && InInt64(exp) && p.exp == FormatInt(exp) && Transparent(p.hdr) && '"' !in p.hdr
  }

  ghost predicate GoodReferences(resolve: (string, string) -> string, baseUrl: string, body: string) {
    forall k :: 0 <= k < |References(body)| ==> GoodTarget(resolve(baseUrl, References(body)[k]))
  }

  lemma QuotesKeptIff(
      mac: string -> string, resolve: (string, string) -> string, baseUrl: string, proxyBase: string, p: Params,
      body: string)
    requires IsMac(mac) && '"' !in proxyBase && '"' !in p.exp && '"' !in p.hdr
    ensures KeepsQuotes(Split(body, '\n'), Proxied(mac, resolve, baseUrl, proxyBase, p))
      <==> (QuotesSome(body) ==> '"' !in p.uid)
  {
    var lines, g := Split(body, '\n'), Proxied(mac, resolve, baseUrl, proxyBase, p);
    forall k | 0 <= k < |lines| && IsQuoting(lines[k]) ensures '"' in g(QuotedUri(lines[k])) <==> '"' in p.uid {
      LinkUnquoted(mac, proxyBase, resolve(baseUrl, QuotedUri(lines[k])), p);
    }
  }

  /** Exactly which user ids survive in a rewritten playlist: those, not empty, that a query and a request carry
      as they are, and, if a tag of the playlist quotes a reference, without quotation mark. */
  lemma PlaylistServedIff(
      mac: string -> string, resolve: (string, string) -> string, baseUrl: string, proxyBase: string, p: Params,
      body: string, exp: int, now: int)
    requires IsMac(mac) && PlainBase(proxyBase) && Current(p, exp, now)
    requires References(body) != [] && GoodReferences(resolve, baseUrl, body)
    ensures AllServed(mac, resolve, baseUrl, proxyBase, p, body, now)
      <==> p.uid != "" && Transparent(p.uid) && (QuotesSome(body) ==> '"' !in p.uid)
  {
    CanonicalIsPlain(exp);
    FormatIntIsDecimal(exp);
    forall k | 0 <= k < |References(body)|
      ensures
        var target := resolve(baseUrl, References(body)[k]);
        Serve(mac, ProxyUrl(mac, proxyBase, target, p), now) == Some((target, p)) <==>
          p.uid != "" && Transparent(p.uid)
    {
      ProxiedUidKeptIff(mac, proxyBase, resolve(baseUrl, References(body)[k]), p, exp, now);
    }
    if p.uid != "" && Transparent(p.uid) {
      ProxiedFitsLines(mac, resolve, baseUrl, proxyBase, p);
      ReferencesRewrittenIff(body, Proxied(mac, resolve, baseUrl, proxyBase, p));
      QuotesKeptIff(mac, resolve, baseUrl, proxyBase, p, body);
    } else {
      var g := Proxied(mac, resolve, baseUrl, proxyBase, p);
      assert Serve(mac, g(References(body)[0]), now) != Some((resolve(baseUrl, References(body)[0]), p));
    }
  }

  lemma OneLine(line: string, g: string -> string)
    requires '\n' !in line && IsQuoting(line)
    ensures References(line) == [QuotedUri(line)] && QuotesSome(line)
    ensures Mapped(References(line), g) == [g(QuotedUri(line))]
  {
    SplitNone(line, '\n');
    assert IsQuoting(Split(line, '\n')[0]);
    ReferencesAppend([], line);
    assert [] + [line] == [line];
    MappedAppend([], QuotedUri(line), g);
  }

  lemma OnlyOne<T>(list: seq<T>, x: T)
    requires |list| == 1
    ensures x in list <==> list == [x]
  {
    assert list == [list[0]];
  }

  lemma TagReadIff(
      mac: string -> string, resolve: (string, string) -> string, baseUrl: string, proxyBase: string, p: Params,
      line: string)
    requires IsMac(mac) && PlainBase(proxyBase) && Transparent(p.uid) && Transparent(p.exp) && Transparent(p.hdr)
    requires '"' !in p.exp && '"' !in p.hdr && '\n' !in line && IsQuoting(line)
    ensures
      var g := Proxied(mac, resolve, baseUrl, proxyBase, p);
      g(QuotedUri(line)) in References(OnReferences(line, g)) <==> '"' !in p.uid
  {
    var g := Proxied(mac, resolve, baseUrl, proxyBase, p);
    OneLine(line, g);
    ProxiedFitsLines(mac, resolve, baseUrl, proxyBase, p);
    ReferencesRewrittenIff(line, g);
    OnlyOne(References(OnReferences(line, g)), g(QuotedUri(line)));
    QuotesKeptIff(mac, resolve, baseUrl, proxyBase, p, line);
  }

  /** The same for one tag: a player reads the link from it and is served with the user id exactly when the id
      is not empty and has no special character, blank, control character or quotation mark. */
  lemma TagLinkServedIff(
      mac: string -> string, resolve: (string, string) -> string, baseUrl: string, proxyBase: string, p: Params,
      line: string, exp: int, now: int)
    requires IsMac(mac) && PlainBase(proxyBase) && Current(p, exp, now)
    requires '\n' !in line && IsQuoting(line) && GoodTarget(resolve(baseUrl, QuotedUri(line)))
    ensures
      var g, target := Proxied(mac, resolve, baseUrl, proxyBase, p), resolve(baseUrl, QuotedUri(line));
      var link := g(QuotedUri(line));
      link in References(OnReferences(line, g)) && Serve(mac, link, now) == Some((target, p))
      <==> p.uid != "" && Transparent(p.uid) && '"' !in p.uid
  {
    ProxiedUidKeptIff(mac, proxyBase, resolve(baseUrl, QuotedUri(line)), p, exp, now);
    if Transparent(p.uid) {
      CanonicalIsPlain(exp);
      FormatIntIsDecimal(exp);
      TagReadIff(mac, resolve, baseUrl, proxyBase, p, line);
    }
  }

  // ---- nesting ----

  /** The playlist fetched for a served link, the proxy address it is rewritten for, and which of the
      references in the rewritten text is followed. */
  datatype Visit = Visit(proxyBase: string, body: string, choice: nat)

  /** The link that a player reaches at this time; None when the proxy refuses one on the way or a text has
      too few references. */
  function LinkReached(
      mac: string -> string, resolve: (string, string) -> string, link: string, visits: seq<Visit>, now: int)
    : Option<string>
  {
    if visits == [] then Some(link)
    else
      var before, v := LinkReached(mac, resolve, link, visits[..|visits| - 1], now), visits[|visits| - 1];
      if before.None? || Serve(mac, before.value, now).None? then None
      else
        var (target, p) := Serve(mac, before.value, now).value;
        var refs := References(OnReferences(v.body, Proxied(mac, resolve, target, v.proxyBase, p)));
        if v.choice < |refs| then Some(refs[v.choice]) else None
  }

  /** Every choice is one of the references of its playlist. */
  predicate InRange(visits: seq<Visit>) {
    forall k :: 0 <= k < |visits| ==> visits[k].choice < |References(visits[k].body)|
  }

  function HopsOf(visits: seq<Visit>): (hops: seq<Hop>)
    requires InRange(visits)
    ensures |hops| == |visits|
  {
    seq(|visits|, k requires 0 <= k < |visits| =>
      Hop(visits[k].proxyBase, References(visits[k].body)[visits[k].choice]))
  }

  lemma HopsOfPrefix(visits: seq<Visit>, n: nat)
    requires InRange(visits) && n <= |visits|
    ensures InRange(visits[..n]) && HopsOf(visits[..n]) == HopsOf(visits)[..n]
  {
  }

  /** A served playlist's rewritten text offers, at the place of each reference, the link of that hop. */
  lemma ReferenceIsHop(
      mac: string -> string, resolve: (string, string) -> string, link: string, now: int, v: Visit, target: string,
      p: Params)
    requires IsMac(mac) && PlainBase(v.proxyBase) && Serve(mac, link, now) == Some((target, p))
    requires Transparent(p.uid) && Transparent(p.exp) && Transparent(p.hdr) && '"' !in p.exp && '"' !in p.hdr
    requires v.choice < |References(v.body)| && (QuotesSome(v.body) ==> '"' !in p.uid)
    ensures
      var refs := References(OnReferences(v.body, Proxied(mac, resolve, target, v.proxyBase, p)));
      && v.choice < |refs|
      && refs[v.choice] == ProxyUrl(mac, v.proxyBase, resolve(target, References(v.body)[v.choice]), p)
  {
    ProxiedFitsLines(mac, resolve, target, v.proxyBase, p);
    ReferencesRewrittenIff(v.body, Proxied(mac, resolve, target, v.proxyBase, p));
    QuotesKeptIff(mac, resolve, target, v.proxyBase, p, v.body);
  }

  ghost predicate GoodVisits(resolve: (string, string) -> string, url: string, visits: seq<Visit>) {
    && InRange(visits) && GoodHops(resolve, url, HopsOf(visits))
    && forall k :: 0 <= k < |visits| ==> PlainBase(visits[k].proxyBase)
  }

  lemma GoodVisitsPrefix(resolve: (string, string) -> string, url: string, visits: seq<Visit>, n: nat)
    requires GoodVisits(resolve, url, visits) && n <= |visits|
    ensures GoodVisits(resolve, url, visits[..n])
  {
    HopsOfPrefix(visits, n);
    var hops, part := HopsOf(visits), HopsOf(visits[..n]);
    assert forall k :: 0 <= k <= n ==> part[..k] == hops[..k];
  }

  /** One more visit leads a player where one more hop leads. */
  lemma OneMoreVisit(
      mac: string -> string, resolve: (string, string) -> string, start: string, visits: seq<Visit>, link: string,
      target: string, p: Params, now: int)
    requires IsMac(mac) && visits != [] && InRange(visits) && Serve(mac, link, now) == Some((target, p))
    requires Transparent(p.uid) && Transparent(p.exp) && Transparent(p.hdr) && '"' !in p.exp && '"' !in p.hdr
    requires
      var n, v := |visits| - 1, visits[|visits| - 1];
      && PlainBase(v.proxyBase) && (QuotesSome(v.body) ==> '"' !in p.uid)
      && LinkReached(mac, resolve, start, visits[..n], now) == Some(link)
      && LinkAfter(mac, resolve, start, HopsOf(visits)[..n], now) == Some(link)
    ensures LinkReached(mac, resolve, start, visits, now) == LinkAfter(mac, resolve, start, HopsOf(visits), now)
  {
    ReferenceIsHop(mac, resolve, link, now, visits[|visits| - 1], target, p);
  }

  /** What a player needs of the user id in the playlists it visits. */
  predicate FitsBodies(uid: string, visits: seq<Visit>) {
    Transparent(uid) && forall k :: 0 <= k < |visits| && QuotesSome(visits[k].body) ==> '"' !in uid
  }

  /** Reading links from playlist texts leads where the hops lead. */
  lemma {:induction false} ReachedIsAfter(
      mac: string -> string, resolve: (string, string) -> string, base: string, url: string, uid: string, exp: int,
      headers: string, visits: seq<Visit>, now: int)
    requires IsMac(mac) && IsBase(base) && InInt64(exp) && now <= exp && GoodVisits(resolve, url, visits)
    requires IsBytes(uid) && uid != "" && IsTrimmed(uid) && FitsBodies(uid, visits)
    ensures
      var start := SignedUrl(mac, base, url, uid, exp, headers);
      LinkReached(mac, resolve, start, visits, now) == LinkAfter(mac, resolve, start, HopsOf(visits), now)
  {
    if visits != [] {
      var n, before := |visits| - 1, visits[..|visits| - 1];
      GoodVisitsPrefix(resolve, url, visits, n);
      HopsOfPrefix(visits, n);
      ReachedIsAfter(mac, resolve, base, url, uid, exp, headers, before, now);
      NestedLinksStayValid(mac, resolve, base, url, uid, exp, headers, HopsOf(before), now);
      SignedParamsArePlain(exp, headers);
      var start := SignedUrl(mac, base, url, uid, exp, headers);
      OneMoreVisit(mac, resolve, start, visits, LinkReached(mac, resolve, start, before, now).value,
                   TargetAfter(resolve, url, HopsOf(before)), Params(uid, FormatInt(exp), Encode64(headers, false)),
                   now);
    }
  }

  /** Through any playlists, read as text, a player that starts with a signed link only ever reaches links
      that the proxy serves until the signed expiry, for the target its choices lead to and with the same
      user, expiry and headers. */
  lemma PlaylistLinksStayValid(
      mac: string -> string, resolve: (string, string) -> string, base: string, url: string, uid: string, exp: int,
      headers: string, visits: seq<Visit>, now: int)
    requires IsMac(mac) && IsBase(base) && InInt64(exp) && now <= exp && GoodVisits(resolve, url, visits)
    requires IsBytes(uid) && uid != "" && IsTrimmed(uid) && FitsBodies(uid, visits)
    ensures
      var link := LinkReached(mac, resolve, SignedUrl(mac, base, url, uid, exp, headers), visits, now);
      && link.Some?
      && Serve(mac, link.value, now)
        == Some((TargetAfter(resolve, url, HopsOf(visits)), Params(uid, FormatInt(exp), Encode64(headers, false))))
      && forall later :: later > exp ==> Serve(mac, link.value, later) == None
  {
    NestedLinksStayValid(mac, resolve, base, url, uid, exp, headers, HopsOf(visits), now);
    ReachedIsAfter(mac, resolve, base, url, uid, exp, headers, visits, now);
  }

  lemma SignedParamsArePlain(exp: int, headers: string)
    requires InInt64(exp)
    ensures PlainParams(Params("", FormatInt(exp), Encode64(headers, false)))
  {
    CanonicalIsPlain(exp);
    FormatIntIsDecimal(exp);
    EncodedAlphabet(headers, false);
    Encoded64IsBytes(headers);
  }

  // ---- a tag whose URI ends in a blank ----

  /** A tag with a URI attribute and nothing else. */
  function TagWith(name: string, uri: string): string {
    name + URI + (uri + "\"")
  }

  lemma TagWithParts(name: string, uri: string)
    requires name != "" && name[0] == '#' && 'U' !in name && '"' !in uri
    ensures IsTag(TagWith(name, uri)) && HasUri(TagWith(name, uri)) && QuotedUri(TagWith(name, uri)) == uri
  {
    var line, k := TagWith(name, uri), |name|;
    Associative(name, URI, uri + "\"");
    assert forall j :: k <= j < k + 5 ==> line[j] == URI[j - k];
    UriAt(line, k);
    assert At(line, URI, k);
    forall j | 0 <= j < k ensures !(URI <= line[j..]) {
      assert line[j] == name[j];
      if At(line, URI, j) {
        UriInk(line, j);
      }
    }
    FirstInk(line, 0);
    assert IndexOfText(line, URI) == |name + URI| - 5;
    QuotesRead(line, name + URI, uri, "\"");
  }

  /** The rewriter does not trim quoted URIs, and an absolute reference is resolved to itself: the link put
      into the tag `#EXT-X-MAP:URI="http://h/x "` is refused. */
  lemma PaddedUriIsRefused(
      mac: string -> string, resolve: (string, string) -> string, baseUrl: string, proxyBase: string, p: Params,
      exp: int, now: int)
    requires IsMac(mac) && PlainBase(proxyBase) && PlainParams(p) && p.uid != "" && InInt64(exp)
    requires p.exp == FormatInt(exp)
    requires resolve(baseUrl, "http://h/x ") == "http://h/x "
    requires Separates(mac, Message("http://h/x ", p.uid, p.exp), Message(TrimSpace("http://h/x "), p.uid, p.exp))
    ensures
      var tag, g := TagWith("#EXT-X-MAP:", "http://h/x "), Proxied(mac, resolve, baseUrl, proxyBase, p);
      var link := ReferenceOf(OnReference(tag, g));
      link == Some(ProxyUrl(mac, proxyBase, "http://h/x ", p)) && Serve(mac, link.value, now) == None
  {
    PaddedTag(mac, resolve, baseUrl, proxyBase, p, "#EXT-X-MAP:", "http://h/x ", exp, now);
  }

  lemma PaddedTag(
      mac: string -> string, resolve: (string, string) -> string, baseUrl: string, proxyBase: string, p: Params,
      name: string, uri: string, exp: int, now: int)
    requires IsMac(mac) && PlainBase(proxyBase) && PlainParams(p) && p.uid != "" && InInt64(exp)
    requires p.exp == FormatInt(exp)
    requires name != "" && name[0] == '#' && 'U' !in name && '"' !in uri
    requires IsBytes(uri) && !IsTrimmed(uri) && resolve(baseUrl, uri) == uri
    requires Separates(mac, Message(uri, p.uid, p.exp), Message(TrimSpace(uri), p.uid, p.exp))
    ensures
      var link := ReferenceOf(OnReference(TagWith(name, uri), Proxied(mac, resolve, baseUrl, proxyBase, p)));
      link == Some(ProxyUrl(mac, proxyBase, uri, p)) && Serve(mac, link.value, now) == None
  {
    TagLinkRead(mac, resolve, baseUrl, proxyBase, p, name, uri);
    assert IsTrimmed(p.uid);
    PaddedTargetIsRefused(mac, proxyBase, uri, p, exp, now);
  }

  lemma TagLinkRead(
      mac: string -> string, resolve: (string, string) -> string, baseUrl: string, proxyBase: string, p: Params,
      name: string, uri: string)
    requires IsMac(mac) && PlainBase(proxyBase) && PlainParams(p) && name != "" && name[0] == '#' && 'U' !in name
    requires '"' !in uri
    ensures ReferenceOf(OnReference(TagWith(name, uri), Proxied(mac, resolve, baseUrl, proxyBase, p)))
      == Some(ProxyUrl(mac, proxyBase, resolve(baseUrl, uri), p))
  {
    TagWithParts(name, uri);
    TagLinkKeptIff(mac, resolve, baseUrl, proxyBase, p, TagWith(name, uri));
  }

  /** The id `a"b` survives on a line of its own and not in the tag `#EXT-X-MAP:URI="http://h/x"`. */
  lemma QuotedUidIsLost(
      mac: string -> string, resolve: (string, string) -> string, baseUrl: string, proxyBase: string, now: int)
    requires IsMac(mac) && PlainBase(proxyBase) && now <= 9 && resolve(baseUrl, "http://h/x") == "http://h/x"
    ensures
      var p := Params("a\"b", "9", "");
      var tag, g := TagWith("#EXT-X-MAP:", "http://h/x"), Proxied(mac, resolve, baseUrl, proxyBase, p);
      && Serve(mac, g("http://h/x"), now) == Some(("http://h/x", p))
      && References(tag) == ["http://h/x"] && g("http://h/x") !in References(OnReferences(tag, g))
  {
    QuotedLiterals();
    TagWithParts("#EXT-X-MAP:", "http://h/x");
    QuotedIdIsLost(mac, resolve, baseUrl, proxyBase, Params("a\"b", "9", ""), TagWith("#EXT-X-MAP:", "http://h/x"),
                   "http://h/x", 9, now);
  }

  lemma QuotedLiterals()
    ensures
      var p, tag := Params("a\"b", "9", ""), TagWith("#EXT-X-MAP:", "http://h/x");
      && Current(p, 9, 9) && Transparent(p.uid) && '"' in p.uid && '\n' !in tag && GoodTarget("http://h/x")
  {
    Literals();
    assert "a\"b"[1] == '"';
  }

  lemma QuotedIdIsLost(
      mac: string -> string, resolve: (string, string) -> string, baseUrl: string, proxyBase: string, p: Params,
      tag: string, uri: string, exp: int, now: int)
    requires IsMac(mac) && PlainBase(proxyBase) && Current(p, exp, now) && Transparent(p.uid) && '"' in p.uid
    requires '\n' !in tag && IsQuoting(tag) && QuotedUri(tag) == uri && resolve(baseUrl, uri) == uri && GoodTarget(uri)
    ensures
      var g := Proxied(mac, resolve, baseUrl, proxyBase, p);
      && Serve(mac, g(uri), now) == Some((uri, p))
      && References(tag) == [uri] && g(uri) !in References(OnReferences(tag, g))
  {
    OneLine(tag, Proxied(mac, resolve, baseUrl, proxyBase, p));
    ProxiedUidKeptIff(mac, proxyBase, uri, p, exp, now);
    TagLinkServedIff(mac, resolve, baseUrl, proxyBase, p, tag, exp, now);
  }
}
