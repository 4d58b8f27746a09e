/** The Hub's paginated tree endpoint and the mirroring policy (internal/mirror/hf.go). */
module Hub {
  import opened Wrappers
  import opened Text

  const MAX_TREE_PAGES := 1000

  // ----- the Link header -----

  datatype URL = URL(scheme: string, host: string, text: string)

  /** base.Parse: a reference resolved against the configured Hub, or a parse error. */
  type Resolver = string -> Option<URL>

  datatype HubError = BadLink | ForeignHost | PageFailed | TooManyPages

  const REL_NEXT_QUOTED: string := ['r', 'e', 'l', '=', '"', 'n', 'e', 'x', 't', '"']
  const REL_NEXT: string := ['r', 'e', 'l', '=', 'n', 'e', 'x', 't']
  const NEXT: string := ['n', 'e', 'x', 't']

  /** One comma-separated part of the header: the target it names, if it is the next link. */
  function NextTarget(part: string): Option<string> {
    var lt, gt := IndexOf(part, '<'), IndexOf(part, '>');
    if lt == |part| || gt == |part| || gt < lt then None
    else
      var params := ToLower(part[gt..]);
      if Contains(params, REL_NEXT_QUOTED) || Contains(params, REL_NEXT)
      then Some(TrimSpace(part[lt + 1..gt])) else None
  }

  /** The target of the first next link among the parts. */
  function FirstTarget(parts: seq<string>): Option<string> {
    if parts == [] then None
    else if NextTarget(parts[0]).Some? then NextTarget(parts[0])
    else FirstTarget(parts[1..])
  }

  /** A next link is followed only on the configured host; "" means there is no next page. */
  function NextPage(link: string, base: URL, resolve: Resolver): Result<string, HubError> {
    var target := FirstTarget(Split(link, ','));
    if target.None? then Ok("")
    else
      var u := resolve(target.value);
      if u.None? then Err(BadLink)
      else if u.value.host != base.host || u.value.scheme != base.scheme then Err(ForeignHost)
      else Ok(u.value.text)
  }

  lemma FirstTargetFrom(parts: seq<string>, i: nat)
    requires i < |parts|
    ensures FirstTarget(parts[i..]) ==
            if NextTarget(parts[i]).Some? then NextTarget(parts[i]) else FirstTarget(parts[i + 1..])
  {
    assert parts[i..][1..] == parts[i + 1..];
  }

  method NextPageURL(link: string, base: URL, resolve: Resolver) returns (r: Result<string, HubError>)
    ensures r == NextPage(link, base, resolve)
  {
    var parts := Split(link, ',');
    for i := 0 to |parts|
      invariant FirstTarget(parts) == FirstTarget(parts[i..])
    {
      var part := parts[i];
      FirstTargetFrom(parts, i);
      var lt, gt := IndexOf(part, '<'), IndexOf(part, '>');
      if lt == |part| || gt == |part| || gt < lt {
        continue;
      }
      var params := ToLower(part[gt..]);
      if !Contains(params, REL_NEXT_QUOTED) && !Contains(params, REL_NEXT) {
        continue;
      }
      var u := resolve(TrimSpace(part[lt + 1..gt]));
      if u.None? {
        return Err(BadLink);
      }
      if u.value.host != base.host || u.value.scheme != base.scheme {
        return Err(ForeignHost);
      }
      return Ok(u.value.text);
    }
    return Ok("");
  }

  // ----- a printed Link header is read back (section 3 of RFC 8288) -----

  datatype Link = Link(target: string, rel: string)

  const BEFORE_REL: string := ['>', ';', ' ', 'r', 'e', 'l', '=', '"']

  function RelParams(rel: string): string { BEFORE_REL + rel + ['"'] }

  function PrintLink(l: Link): string { ['<'] + l.target + RelParams(l.rel) }

  function PrintLinks(links: seq<Link>): string {
    if links == [] then ""
    else if |links| == 1 then PrintLink(links[0])
    else PrintLink(links[0]) + [',', ' '] + PrintLinks(links[1..])
  }

  /** What quoting and splitting leave room for: nothing is asked of the relation but to be quotable. */
  predicate Printable(l: Link) {
    && TrimSpace(l.target) == l.target && ',' !in l.target && '>' !in l.target
    && Quotable(l.rel)
  }

  predicate Quotable(rel: string) { '"' !in rel && ',' !in rel }

  /** RFC 8288, section 3.3: relation types are separated by spaces and compared without case. */
  predicate IsNext(rel: string) { NEXT in Split(ToLower(rel), ' ') }

  /** What the reader looks for instead. */
  predicate TakenAsNext(rel: string) { ToLower(rel) == NEXT || Contains(ToLower(rel), REL_NEXT) }

  function FirstNext(links: seq<Link>): Option<string> {
    if links == [] then None
    else if IsNext(links[0].rel) then Some(links[0].target)
    else FirstNext(links[1..])
  }

  function FirstTaken(links: seq<Link>): Option<string> {
    if links == [] then None
    else if TakenAsNext(links[0].rel) then Some(links[0].target)
    else FirstTaken(links[1..])
  }

  /** The parameters of a printed link have two quotes, which pin down where a pattern can start. */
  lemma ParamChars(rel: string, i: nat)
    requires '"' !in rel && i < |rel| + 9
    ensures var params := ToLower(RelParams(rel));
            && |params| == |rel| + 9
            && (i < 8 ==> params[i] == BEFORE_REL[i])
            && (8 <= i < |rel| + 8 ==> params[i] == ToLower(rel)[i - 8] && params[i] != '"')
            && (i == |rel| + 8 ==> params[i] == '"')
  {
    if 8 <= i < |rel| + 8 {
      assert RelParams(rel)[i] == rel[i - 8] && rel[i - 8] in rel;
    }
  }

  lemma QuoteAt(rel: string, i: nat)
    requires '"' !in rel && i < |rel| + 9
    ensures |ToLower(RelParams(rel))| == |rel| + 9
    ensures ToLower(RelParams(rel))[i] == '"' <==> i == 7 || i == |rel| + 8
  {
    ParamChars(rel, i);
    assert forall k: nat | k < 8 :: BEFORE_REL[k] == '"' <==> k == 7;
  }

  lemma AtChars(s: string, i: nat, sub: string, k: nat)
    requires At(s, i, sub) && k < |sub|
    ensures i + k < |s| && s[i + k] == sub[k]
  {
    assert s[i..i + |sub|][k] == s[i + k];
  }

  /** The unquoted pattern fits between the quotes or nowhere. */
  lemma BareNextExactly(rel: string)
    requires '"' !in rel
    ensures Contains(ToLower(RelParams(rel)), REL_NEXT) <==> Contains(ToLower(rel), REL_NEXT)
  {
    var params := ToLower(RelParams(rel));
    forall i: nat | At(params, i, REL_NEXT) ensures i >= 8 && At(ToLower(rel), i - 8, REL_NEXT) {
      BareNextInside(rel, i);
    }
    forall i: nat | At(ToLower(rel), i, REL_NEXT) ensures At(params, 8 + i, REL_NEXT) {
      Inside(rel, i, i + |REL_NEXT|);
    }
  }

  /** The relation sits in the parameters from index 8 on. */
  lemma Inside(rel: string, from: nat, to: nat)
    requires '"' !in rel && from <= to <= |rel|
    ensures |ToLower(RelParams(rel))| == |rel| + 9
    ensures ToLower(RelParams(rel))[8 + from..8 + to] == ToLower(rel)[from..to]
  {
    var params := ToLower(RelParams(rel));
    assert |params| == |rel| + 9;
    forall k | 0 <= k < to - from ensures params[8 + from..8 + to][k] == ToLower(rel)[from..to][k] {
      ParamChars(rel, 8 + from + k);
    }
  }

  lemma BareNextInside(rel: string, i: nat)
    requires '"' !in rel && At(ToLower(RelParams(rel)), i, REL_NEXT)
    ensures i >= 8 && At(ToLower(rel), i - 8, REL_NEXT)
  {
    var params := ToLower(RelParams(rel));
    QuoteAt(rel, 7);
    QuoteAt(rel, |rel| + 8);
    assert '"' !in REL_NEXT;
    if i < 8 {
      AtChars(params, i, REL_NEXT, 7 - i);
    } else if i > |rel| {
      AtChars(params, i, REL_NEXT, |rel| + 8 - i);
    } else {
      Inside(rel, i - 8, i);
    }
  }

  /** The quoted pattern matches exactly when the whole relation is next. */
  lemma QuotedNextExactly(rel: string)
    requires '"' !in rel
    ensures Contains(ToLower(RelParams(rel)), REL_NEXT_QUOTED) <==> ToLower(rel) == NEXT
  {
    var params := ToLower(RelParams(rel));
    forall i: nat | At(params, i, REL_NEXT_QUOTED) ensures ToLower(rel) == NEXT {
      QuotedNextIsAll(rel, i);
    }
    if ToLower(rel) == NEXT {
      assert |rel| == 4;
      forall k: nat | k < 10 ensures params[3 + k] == REL_NEXT_QUOTED[k] {
        ParamChars(rel, 3 + k);
      }
      assert params[3..13] == REL_NEXT_QUOTED;
      assert At(params, 3, REL_NEXT_QUOTED);
    }
  }

  lemma QuotedNextIsAll(rel: string, i: nat)
    requires '"' !in rel && At(ToLower(RelParams(rel)), i, REL_NEXT_QUOTED)
    ensures ToLower(rel) == NEXT
  {
    var params := ToLower(RelParams(rel));
    AtChars(params, i, REL_NEXT_QUOTED, 4);
    AtChars(params, i, REL_NEXT_QUOTED, 9);
    ParamChars(rel, 0);
    QuoteAt(rel, i + 4);
    QuoteAt(rel, i + 9);
    assert i == 3 && |rel| == 4;
    forall k: nat | k < 4 ensures ToLower(rel)[k] == NEXT[k] {
      AtChars(params, i, REL_NEXT_QUOTED, 5 + k);
      ParamChars(rel, 8 + k);
    }
  }

  lemma IndexIs(s: string, c: char, i: nat)
    requires i < |s| && s[i] == c && c !in s[..i]
    ensures IndexOf(s, c) == i
  {
    CutAt(s[..i], c, s[i + 1..]);
    assert s == s[..i] + [c] + s[i + 1..];
    var j := IndexOf(s, c);
    assert c in s;
    assert Cut(s, c).before == s[..j] && Cut(s, c).before == s[..i];
  }

  /** One printed link, with or without the space a list puts before it. */
  lemma PrintedTarget(l: Link, space: string)
    requires Printable(l) && (space == [] || space == [' '])
    ensures NextTarget(space + PrintLink(l)) == if TakenAsNext(l.rel) then Some(l.target) else None
  {
    ParamsStart(l.rel);
    Regrouped(space, l.target, RelParams(l.rel));
    Bracketed(space, l.target, RelParams(l.rel));
    BareNextExactly(l.rel);
    QuotedNextExactly(l.rel);
  }

  lemma ParamsStart(rel: string)
    ensures RelParams(rel) != [] && RelParams(rel)[0] == '>'
  {
  }

  lemma Regrouped(space: string, target: string, params: string)
    ensures space + (['<'] + target + params) == space + ['<'] + target + params
  {
  }

  /** The first brackets of a part are those around its target, and the parameters follow. */
  lemma Bracketed(space: string, target: string, params: string)
    requires '<' !in space && '>' !in space && '>' !in target && params != [] && params[0] == '>'
    ensures NextTarget(space + ['<'] + target + params) ==
            if Contains(ToLower(params), REL_NEXT_QUOTED) || Contains(ToLower(params), REL_NEXT)
            then Some(TrimSpace(target)) else None
  {
    var part := space + ['<'] + target + params;
    var lt, gt := |space|, |space| + 1 + |target|;
    assert part[..lt] == space && part[lt] == '<';
    assert part[..gt] == space + ['<'] + target && part[gt] == params[0];
    IndexIs(part, '<', lt);
    IndexIs(part, '>', gt);
    assert part[lt + 1..gt] == target && part[gt..] == params;
  }

  lemma FirstTargetCons(first: string, rest: seq<string>)
    ensures FirstTarget([first] + rest) == if NextTarget(first).Some? then NextTarget(first) else FirstTarget(rest)
  {
    assert ([first] + rest)[1..] == rest;
  }

  lemma PrintLinkHasNoComma(l: Link)
    requires Printable(l)
    ensures ',' !in PrintLink(l)
  {
  }

  lemma SplitOnce(first: string, rest: string)
    requires ',' !in first
    ensures Split(first + [','] + rest, ',') == [first] + Split(rest, ',')
  {
    CutAt(first, ',', rest);
  }

  /** The parts a printed header splits into: a list puts a space before every link but the first. */
  function Parts(links: seq<Link>, space: string): seq<string> {
    if links == [] then [] else [space + PrintLink(links[0])] + Parts(links[1..], [' '])
  }

  lemma {:induction false} SplitIsParts(links: seq<Link>, space: string)
    requires links != [] && (space == [] || space == [' '])
    requires forall l | l in links :: Printable(l)
    ensures Split(space + PrintLinks(links), ',') == Parts(links, space)
    decreases |links|
  {
    PrintedHead(links, space);
    if |links| > 1 {
      SplitIsParts(links[1..], [' ']);
    }
  }

  lemma {:induction false} PartsAreTaken(links: seq<Link>, space: string)
    requires space == [] || space == [' ']
    requires forall l | l in links :: Printable(l)
    ensures FirstTarget(Parts(links, space)) == FirstTaken(links)
    decreases |links|
  {
    if links != [] {
      PrintedTarget(links[0], space);
      FirstTargetCons(space + PrintLink(links[0]), Parts(links[1..], [' ']));
      PartsAreTaken(links[1..], [' ']);
    }
  }

  lemma PrintedHead(links: seq<Link>, space: string)
    requires links != [] && (space == [] || space == [' '])
    requires forall l | l in links :: Printable(l)
    ensures Split(space + PrintLinks(links), ',') ==
            [space + PrintLink(links[0])] +
            if |links| == 1 then [] else Split([' '] + PrintLinks(links[1..]), ',')
  {
    PrintLinkHasNoComma(links[0]);
    if |links| > 1 {
      PrintedTail(space, PrintLink(links[0]), PrintLinks(links[1..]));
      SplitOnce(space + PrintLink(links[0]), [' '] + PrintLinks(links[1..]));
    }
  }

  lemma PrintedTail(space: string, first: string, rest: string)
    ensures space + (first + [',', ' '] + rest) == space + first + [','] + ([' '] + rest)
  {
    assert [',', ' '] == [','] + [' '];
  }

  /**
   * What is read off any printed header: the target of the first link the reader takes for the next one;
   * and that is the next link when each relation is taken for what it is.
   */
  lemma PrintedHeader(links: seq<Link>)
    requires forall l | l in links :: Printable(l)
    ensures FirstTarget(Split(PrintLinks(links), ',')) == FirstTaken(links)
    ensures (forall l | l in links :: TakenAsNext(l.rel) <==> IsNext(l.rel)) ==> FirstTaken(links) == FirstNext(links)
  {
    if links == [] {
      assert Split("", ',') == [""] && [""][1..] == [];
    } else {
      SplitIsParts(links, []);
      PartsAreTaken(links, []);
      assert [] + PrintLinks(links) == PrintLinks(links);
    }
    if forall l | l in links :: TakenAsNext(l.rel) <==> IsNext(l.rel) {
      TakenIsNext(links);
    }
  }

  lemma {:induction false} TakenIsNext(links: seq<Link>)
    requires forall l | l in links :: TakenAsNext(l.rel) <==> IsNext(l.rel)
    ensures FirstTaken(links) == FirstNext(links)
  {
    if links != [] {
      assert links[0] in links && forall l | l in links[1..] :: l in links;
      TakenIsNext(links[1..]);
    }
  }

  /** Every header whose relations are all among `rels` is read right. */
  ghost predicate ReadRight(rels: set<string>) {
    forall links: seq<Link> | forall l | l in links :: Printable(l) && l.rel in rels ::
      FirstTarget(Split(PrintLinks(links), ',')) == FirstNext(links)
  }

  /** Exactly the vocabularies the reader understands. */
  lemma ReadRightExactly(rels: set<string>)
    ensures ReadRight(rels) <==> forall rel | rel in rels && Quotable(rel) :: TakenAsNext(rel) <==> IsNext(rel)
  {
    if ReadRight(rels) {
      forall rel | rel in rels && Quotable(rel) ensures TakenAsNext(rel) <==> IsNext(rel) {
        OneLinkHeader(rels, rel);
      }
    } else {
      var links: seq<Link> :| (forall l | l in links :: Printable(l) && l.rel in rels)
                              && FirstTarget(Split(PrintLinks(links), ',')) != FirstNext(links);
      PrintedHeader(links);
      var l :| l in links && !(TakenAsNext(l.rel) <==> IsNext(l.rel));
    }
  }

  lemma OneLinkHeader(rels: set<string>, rel: string)
    requires ReadRight(rels) && rel in rels && Quotable(rel)
    ensures TakenAsNext(rel) <==> IsNext(rel)
  {
    var l := Link("", rel);
    var links := [l];
    assert links[0] == l && links[1..] == [];
    assert forall k | k in links :: Printable(k) && k.rel in rels;
    PrintedHeader(links);
    assert FirstTarget(Split(PrintLinks(links), ',')) == FirstNext(links);
    assert FirstTaken(links) == if TakenAsNext(rel) then Some("") else FirstTaken(links[1..]);
    assert FirstNext(links) == if IsNext(rel) then Some("") else FirstNext(links[1..]);
  }

  /** One relation type without '=', as every registered one, is taken for what it is. */
  lemma SingleTypeIsReadRight(rel: string)
    requires ' ' !in rel && '=' !in rel
    ensures TakenAsNext(rel) <==> IsNext(rel)
  {
    var low := ToLower(rel);
    assert forall i | 0 <= i < |low| :: low[i] != ' ' && low[i] != '=' by {
      assert forall i | 0 <= i < |rel| :: rel[i] in rel;
    }
    OneType(low);
    NoEqualsNoPattern(low);
  }

  lemma NoEqualsNoPattern(s: string)
    requires '=' !in s
    ensures !Contains(s, REL_NEXT)
  {
    forall i: nat | At(s, i, REL_NEXT) ensures false {
      AtChars(s, i, REL_NEXT, 3);
    }
  }

  lemma TwoTypes(a: string, b: string)
    requires ' ' !in a && ' ' !in b
    ensures Split(a + [' '] + b, ' ') == [a, b]
  {
    CutAt(a, ' ', b);
    CutParts(b, ' ');
  }

  /** A next link among others is overlooked, whatever type comes first: `rel="prev next"`. */
  lemma SecondTypeIsOverlooked(first: string)
    requires ' ' !in first && '=' !in first && forall c | c in first :: !Upper(c)
    ensures IsNext(first + [' '] + NEXT) && !TakenAsNext(first + [' '] + NEXT)
    ensures Quotable(first) ==> Quotable(first + [' '] + NEXT)
  {
    NextStays(first);
    TwoTypes(first, NEXT);
    NextIsSecond(first, NEXT);
    NoEqualsNoPattern(first + [' '] + NEXT);
    Longer(first, NEXT);
  }

  lemma NextStays(first: string)
    requires forall c | c in first :: !Upper(c)
    ensures ToLower(first + [' '] + NEXT) == first + [' '] + NEXT
    ensures ' ' !in NEXT && '=' !in NEXT && '"' !in NEXT && ',' !in NEXT
  {
    LowerCaseStays(first + [' '] + NEXT);
  }

  lemma NextIsSecond(a: string, b: string)
    ensures b in [a, b]
  {
    assert [a, b][1] == b;
  }

  lemma Longer(a: string, b: string)
    ensures a + [' '] + b != b
  {
    assert |a + [' '] + b| > |b|;
  }

  const QUERY: string := ['x', ':', '?']

  /** An extension relation that spells the pattern is followed: `rel="x:?rel=next"`. */
  lemma ExtensionIsFollowed()
    ensures var rel := QUERY + REL_NEXT;
            Quotable(rel) && !IsNext(rel) && TakenAsNext(rel)
  {
    var rel := QUERY + REL_NEXT;
    LowerCaseStays(rel);
    OneType(rel);
    assert |rel| == 11;
    assert rel[3..3 + |REL_NEXT|] == REL_NEXT;
    assert At(rel, 3, REL_NEXT);
  }

  lemma OneType(rel: string)
    requires ' ' !in rel
    ensures Split(rel, ' ') == [rel]
  {
    CutParts(rel, ' ');
  }

  /**
   * The address of the next page, read off any header printed from links on the configured host: that of
   * the first link taken for the next one, and so of the next link wherever the two coincide.
   */
  lemma NextPageReadsWhatWasPrinted(links: seq<Link>, base: URL, resolve: Resolver)
    requires forall l | l in links :: Printable(l)
    requires forall l | l in links ::
               var u := resolve(l.target); u.Some? && u.value.host == base.host && u.value.scheme == base.scheme
    ensures FirstTaken(links).None? ==> NextPage(PrintLinks(links), base, resolve) == Ok("")
    ensures FirstTaken(links).Some? ==>
              var u := resolve(FirstTaken(links).value);
              u.Some? && NextPage(PrintLinks(links), base, resolve) == Ok(u.value.text)
    ensures (forall l | l in links :: TakenAsNext(l.rel) <==> IsNext(l.rel)) ==> FirstTaken(links) == FirstNext(links)
  {
    PrintedHeader(links);
    FirstTakenIsALink(links);
  }

  lemma {:induction false} FirstTakenIsALink(links: seq<Link>)
    ensures FirstTaken(links).Some? ==> exists l :: l in links && l.target == FirstTaken(links).value
  {
    if links != [] && !TakenAsNext(links[0].rel) {
      FirstTakenIsALink(links[1..]);
      if FirstTaken(links).Some? {
        var l :| l in links[1..] && l.target == FirstTaken(links[1..]).value;
        assert l in links;
      }
    } else if links != [] {
      assert links[0] in links;
    }
  }

  // ----- following the pages -----

  /** One page request: the decoded items and the Link header, or any failure. */
  type Server<!T> = string -> Option<(seq<T>, string)>

  /** A page and the address of the next one. */
  function Step<T>(url: string, server: Server<T>, base: URL, resolve: Resolver): Result<(seq<T>, string), HubError> {
    var page := server(url);
    if page.None? then Err(PageFailed)
    else
      var next := NextPage(page.value.1, base, resolve);
      if next.Err? then Err(next.error) else Ok((page.value.0, next.value))
  }

  /** The pages met from `start`, in order, and the addresses they were met at. */
  ghost predicate Trail<T>(start: string, urls: seq<string>, pages: seq<seq<T>>,
                           server: Server<T>, base: URL, resolve: Resolver) {
    && |urls| == |pages| + 1 && urls[0] == start
    && forall i | 0 <= i < |pages| ::
         urls[i] != "" && Step(urls[i], server, base, resolve) == Ok((pages[i], urls[i + 1]))
  }

  /** A trail that ran to the end of the listing. */
  ghost predicate Complete<T>(start: string, urls: seq<string>, pages: seq<seq<T>>,
                              server: Server<T>, base: URL, resolve: Resolver) {
    Trail(start, urls, pages, server, base, resolve) && urls[|pages|] == ""
  }

  function Flatten<T>(pages: seq<seq<T>>): seq<T> {
    if pages == [] then [] else Flatten(pages[..|pages| - 1]) + pages[|pages| - 1]
  }

  /** The address is one that base.Parse gave for some target, on the configured host. */
  ghost predicate OnHost(url: string, base: URL, resolve: Resolver) {
    exists target :: resolve(target).Some? && resolve(target).value.text == url
                     && resolve(target).value.host == base.host && resolve(target).value.scheme == base.scheme
  }

  /** However many pages are followed, none but the first address leaves the configured host. */
  lemma PagesStayOnHost<T>(start: string, urls: seq<string>, pages: seq<seq<T>>, i: nat,
                           server: Server<T>, base: URL, resolve: Resolver)
    requires Trail(start, urls, pages, server, base, resolve) && 0 < i <= |pages|
    ensures urls[i] == "" || OnHost(urls[i], base, resolve)
  {
    assert Step(urls[i - 1], server, base, resolve) == Ok((pages[i - 1], urls[i]));
    var link := server(urls[i - 1]).value.1;
    var target := FirstTarget(Split(link, ','));
    if target.Some? {
      assert resolve(target.value).Some?;
    }
  }

  /** Two trails from one address agree as far as both go. */
  lemma {:induction false} TrailsAgree<T>(start: string, n: nat, urls: seq<string>, pages: seq<seq<T>>,
                                          urls': seq<string>, pages': seq<seq<T>>,
                                          server: Server<T>, base: URL, resolve: Resolver)
    requires Trail(start, urls, pages, server, base, resolve)
    requires Trail(start, urls', pages', server, base, resolve)
    requires n <= |pages| && n <= |pages'|
    ensures urls[..n + 1] == urls'[..n + 1] && pages[..n] == pages'[..n]
  {
    if n > 0 {
      TrailsAgree(start, n - 1, urls, pages, urls', pages', server, base, resolve);
      TrailStep(start, urls, pages, n - 1, server, base, resolve);
      TrailStep(start, urls', pages', n - 1, server, base, resolve);
      Extended(urls, urls', n);
      Extended(pages, pages', n - 1);
    }
  }

  lemma TrailStep<T>(start: string, urls: seq<string>, pages: seq<seq<T>>, i: nat,
                     server: Server<T>, base: URL, resolve: Resolver)
    requires Trail(start, urls, pages, server, base, resolve) && i < |pages|
    ensures Step(urls[i], server, base, resolve) == Ok((pages[i], urls[i + 1]))
  {
  }

  lemma Extended<X>(a: seq<X>, b: seq<X>, n: nat)
    requires n < |a| && n < |b| && a[..n] == b[..n]
    ensures n > 0 ==> a[n - 1] == b[n - 1]
    ensures a[n] == b[n] ==> a[..n + 1] == b[..n + 1]
  {
    if n > 0 {
      assert a[n - 1] == a[..n][n - 1] && b[n - 1] == b[..n][n - 1];
    }
    assert a[..n + 1] == a[..n] + [a[n]] && b[..n + 1] == b[..n] + [b[n]];
  }

  /**
   * Follows the pages. It stops on every link graph; it returns the whole listing, in order, exactly
   * when the listing ends within the page limit, and otherwise an error, never a part of it.
   */
  method GetPaged<T>(start: string, server: Server<T>, base: URL, resolve: Resolver)
    returns (r: Result<seq<T>, HubError>, ghost urls: seq<string>, ghost pages: seq<seq<T>>)
    ensures r.Ok? ==> Complete(start, urls, pages, server, base, resolve) && |pages| <= MAX_TREE_PAGES
                      && r.value == Flatten(pages)
    ensures forall us: seq<string>, ps: seq<seq<T>> ::
              Complete(start, us, ps, server, base, resolve) && |ps| <= MAX_TREE_PAGES ==> r == Ok(Flatten(ps))
  {
    var all: seq<T> := [];
    var next := start;
    urls, pages := [start], [];
    var page := 0;
    while next != ""
      invariant Trail(start, urls, pages, server, base, resolve)
      invariant page == |pages| <= MAX_TREE_PAGES && next == urls[page]
      invariant all == Flatten(pages)
      decreases MAX_TREE_PAGES - page
    {
      if page >= MAX_TREE_PAGES {
        r := Err(TooManyPages);
        NoCompleteTrail(start, urls, pages, server, base, resolve);
        return;
      }
      var got := server(next);
      if got.None? {
        r := Err(PageFailed);
        NoCompleteTrail(start, urls, pages, server, base, resolve);
        return;
      }
      var items, link := got.value.0, got.value.1;
      all := all + items;
      var following := NextPageURL(link, base, resolve);
      if following.Err? {
        r := Err(following.error);
        NoCompleteTrail(start, urls, pages, server, base, resolve);
        return;
      }
      next := following.value;
      assert (pages + [items])[..|pages|] == pages;
      urls, pages := urls + [next], pages + [items];
      page := page + 1;
    }
    r := Ok(all);
    forall us: seq<string>, ps: seq<seq<T>> | Complete(start, us, ps, server, base, resolve)
      ensures ps == pages
    {
      CompleteIsUnique(start, urls, pages, us, ps, server, base, resolve);
    }
  }

  lemma CompleteIsUnique<T>(start: string, urls: seq<string>, pages: seq<seq<T>>, us: seq<string>, ps: seq<seq<T>>,
                            server: Server<T>, base: URL, resolve: Resolver)
    requires Complete(start, urls, pages, server, base, resolve)
    requires Complete(start, us, ps, server, base, resolve)
    ensures us == urls && ps == pages
  {
    var n := if |pages| < |ps| then |pages| else |ps|;
    TrailsAgree(start, n, urls, pages, us, ps, server, base, resolve);
    assert urls[..n + 1][n] == us[..n + 1][n];
    assert |ps| == |pages|;
    assert ps[..n] == ps && pages[..n] == pages && urls[..n + 1] == urls && us[..n + 1] == us;
  }

  /** A trail stuck before its end rules out a complete one within reach. */
  lemma NoCompleteTrail<T>(start: string, urls: seq<string>, pages: seq<seq<T>>,
                           server: Server<T>, base: URL, resolve: Resolver)
    requires Trail(start, urls, pages, server, base, resolve) && urls[|pages|] != ""
    requires Step(urls[|pages|], server, base, resolve).Err? || |pages| >= MAX_TREE_PAGES
    ensures forall us: seq<string>, ps: seq<seq<T>> ::
              !(Complete(start, us, ps, server, base, resolve) && |ps| <= MAX_TREE_PAGES)
  {
    forall us: seq<string>, ps: seq<seq<T>> | Complete(start, us, ps, server, base, resolve)
      ensures |ps| > MAX_TREE_PAGES
    {
      var n := if |pages| < |ps| then |pages| else |ps|;
      TrailsAgree(start, n, urls, pages, us, ps, server, base, resolve);
      assert urls[n] == urls[..n + 1][n] == us[n];
      if |ps| > |pages| {
        assert Step(us[n], server, base, resolve) == Ok((ps[n], us[n + 1]));
      }
    }
  }

  /** A listing that leads back to an address it has visited never completes. */
  lemma CyclesNeverComplete<T>(start: string, urls: seq<string>, pages: seq<seq<T>>, i: nat, j: nat,
                               us: seq<string>, ps: seq<seq<T>>, server: Server<T>, base: URL, resolve: Resolver)
    requires Trail(start, urls, pages, server, base, resolve)
    requires i < j <= |pages| && urls[i] == urls[j]
    ensures !Complete(start, us, ps, server, base, resolve)
  {
    if Complete(start, us, ps, server, base, resolve) {
      var n := if |pages| < |ps| then |pages| else |ps|;
      TrailsAgree(start, n, urls, pages, us, ps, server, base, resolve);
      assert |ps| >= j by {
        assert urls[n] == urls[..n + 1][n] == us[..n + 1][n];
      }
      assert us[i] == us[..n + 1][i] == urls[i];
      assert us[j] == us[..n + 1][j] == urls[j];
      CycleRepeats(start, us, ps, i, j, |ps| - j, server, base, resolve);
    }
  }

  lemma {:induction false} CycleRepeats<T>(start: string, us: seq<string>, ps: seq<seq<T>>, i: nat, j: nat, k: nat,
                                           server: Server<T>, base: URL, resolve: Resolver)
    requires Trail(start, us, ps, server, base, resolve)
    requires i < j && j + k <= |ps| && us[i] == us[j]
    ensures us[i + k] == us[j + k]
  {
    if k > 0 {
      CycleRepeats(start, us, ps, i, j, k - 1, server, base, resolve);
      TrailStep(start, us, ps, i + k - 1, server, base, resolve);
      TrailStep(start, us, ps, j + k - 1, server, base, resolve);
    }
  }

  // ----- the tree and the policy -----

  datatype RawEntry = RawEntry(kind: string, path: string, size: int, lfs: Option<string>)

  /** A published hash is empty for a file that is not in LFS. */
  datatype TreeFile = TreeFile(path: string, size: int, sha256: string)

  const OID_PREFIX := "sha256:"

  function ToTreeFile(e: RawEntry): TreeFile {
    TreeFile(e.path, e.size,
             if e.lfs.None? then ""
             else if HasPrefix(e.lfs.value, OID_PREFIX) then e.lfs.value[|OID_PREFIX|..] else e.lfs.value)
  }

  /** The file entries of a listing, in order. */
  function FilesOf(raw: seq<RawEntry>): seq<TreeFile> {
    if raw == [] then []
    else FilesOf(raw[..|raw| - 1]) + if raw[|raw| - 1].kind == "file" then [ToTreeFile(raw[|raw| - 1])] else []
  }

  /** The hash an entry publishes: its LFS object id, with or without the algorithm in front. */
  predicate Publishes(e: RawEntry, h: string) {
    h != "" && (e.lfs == Some(OID_PREFIX + h) || (e.lfs == Some(h) && !HasPrefix(h, OID_PREFIX)))
  }

  lemma PublishedHash(e: RawEntry, h: string)
    requires Publishes(e, h)
    ensures ToTreeFile(e).sha256 == h
  {
    assert (OID_PREFIX + h)[|OID_PREFIX|..] == h;
  }

  /** A policy on the files is one on the raw file entries. */
  lemma {:induction false} AllowedPaths(raw: seq<RawEntry>, policy: Policy)
    ensures (forall f | f in FilesOf(raw) :: PolicyAllows(policy, f.path)) <==>
            (forall e | e in raw && e.kind == "file" :: PolicyAllows(policy, e.path))
  {
    if raw != [] {
      var n := |raw| - 1;
      AllowedPaths(raw[..n], policy);
      assert raw == raw[..n] + [raw[n]];
      assert raw[n].kind == "file" ==> ToTreeFile(raw[n]) in FilesOf(raw);
      assert forall f | f in FilesOf(raw[..n]) :: f in FilesOf(raw);
    }
  }

  /** An empty tree is an error. */
  method TreeOf(raw: seq<RawEntry>) returns (files: seq<TreeFile>, ok: bool)
    ensures files == FilesOf(raw) && (ok <==> files != [])
  {
    files := [];
    for i := 0 to |raw|
      invariant files == FilesOf(raw[..i])
    {
      assert raw[..i + 1][..i] == raw[..i];
      if raw[i].kind != "file" {
        continue;
      }
      files := files + [ToTreeFile(raw[i])];
    }
    assert raw[..|raw|] == raw;
    ok := files != [];
  }

  /** Lower-case extensions, and lower-case names of files without one, that may be mirrored. */
  datatype Policy = Policy(exts: set<string>, names: set<string>)

  const MIRROR_POLICY := Policy(
    {".safetensors",
     ".bash", ".c", ".cc", ".cfg", ".conf", ".cpp", ".csv", ".cu", ".cuh", ".cxx", ".dockerignore",
     ".editorconfig", ".gitattributes", ".gitignore", ".gitmodules", ".h", ".hh", ".hpp", ".ini", ".jinja",
     ".jinja2", ".js", ".json", ".jsonl", ".lock", ".md", ".pdf", ".py", ".pyi", ".rst", ".sh", ".svg",
     ".toml", ".ts", ".tsv", ".txt", ".xml", ".yaml", ".yml",
     ".gif", ".jpeg", ".jpg", ".merges", ".model", ".mp4", ".png", ".spm", ".tiktoken", ".vocab", ".webp"},
    {"authors", "citation", "code_of_conduct", "contributors", "dockerfile", "license", "makefile", "notice",
     "readme", "security", "use_policy"})

  /** path.Ext of a name without slashes: from its last dot on. */
  function Ext(name: string): string {
    if name == "" then ""
    else if '.' in name[1..] then Ext(name[1..])
    else if name[0] == '.' then name
    else ""
  }

  predicate PolicyAllows(policy: Policy, path: string) {
    var name := ToLower(PathBase(path));
    ToLower(Ext(name)) in policy.exts || name in policy.names
  }

  lemma {:induction false} ExtIs(stem: string, ext: string)
    requires ext != "" && ext[0] == '.' && '.' !in ext[1..]
    ensures Ext(stem + ext) == ext
  {
    if stem == "" {
      assert stem + ext == ext;
    } else {
      var name := stem + ext;
      assert name[1..] == stem[1..] + ext;
      assert name[1..][|stem| - 1] == '.';
      ExtIs(stem[1..], ext);
    }
  }

  lemma LowerKeepsDots(s: string)
    ensures '.' in s <==> '.' in ToLower(s)
    ensures s != "" && s[0] == '.' ==> ToLower(s) != "" && ToLower(s)[0] == '.'
  {
    forall i | 0 <= i < |s| ensures ToLower(s)[i] == '.' <==> s[i] == '.' {
    }
    if '.' in s {
      var i :| 0 <= i < |s| && s[i] == '.';
      assert ToLower(s)[i] == '.';
    }
    if '.' in ToLower(s) {
      var i :| 0 <= i < |s| && ToLower(s)[i] == '.';
      assert s[i] == '.';
    }
  }

  lemma LowerSplits(a: string, b: string)
    ensures ToLower(a + b) == ToLower(a) + ToLower(b)
  {
  }

  /** None of the names that may go without an extension contains a dot. */
  lemma NamesHaveNoDot(name: string)
    requires name in MIRROR_POLICY.names
    ensures '.' !in name
  {
  }

  /**
   * The policy fails closed: a file with an extension may be mirrored exactly when the extension, without
   * regard to case, is listed, whatever its directory and stem.
   */
  lemma PolicyFailsClosed(dir: string, stem: string, ext: string)
    requires '/' !in stem && '/' !in ext && ext != "" && ext[0] == '.' && '.' !in ext[1..]
    ensures PolicyAllows(MIRROR_POLICY, dir + ['/'] + (stem + ext)) <==> ToLower(ext) in MIRROR_POLICY.exts
    ensures PolicyAllows(MIRROR_POLICY, stem + ext) <==> ToLower(ext) in MIRROR_POLICY.exts
  {
    var name := stem + ext;
    BaseIsName(dir, name);
    LowerSplits(stem, ext);
    LowerKeepsDots(ext);
    ExtIs(ToLower(stem), ToLower(ext));
    LowerTail(ext);
    LowerStays(ext);
    assert '.' in ToLower(name);
    if ToLower(name) in MIRROR_POLICY.names {
      NamesHaveNoDot(ToLower(name));
    }
  }

  lemma LowerTail(s: string)
    requires s != "" && '.' !in s[1..]
    ensures ToLower(s) != "" && ToLower(s)[1..] == ToLower(s[1..]) && '.' !in ToLower(s)[1..]
  {
    assert ToLower(s)[1..] == ToLower(s[1..]);
    LowerKeepsDots(s[1..]);
  }

  lemma LowerStays(s: string)
    ensures ToLower(ToLower(s)) == ToLower(s)
  {
  }

  method CheckPolicy(policy: Policy, files: seq<TreeFile>) returns (ok: bool)
    ensures ok <==> forall f | f in files :: PolicyAllows(policy, f.path)
  {
    for i := 0 to |files|
      invariant forall f | f in files[..i] :: PolicyAllows(policy, f.path)
    {
      if PolicyAllows(policy, files[i].path) {
        continue;
      }
      assert files[i] in files;
      return false;
    }
    return true;
  }
}
