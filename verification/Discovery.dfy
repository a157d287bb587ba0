/** scan's paginated exchange: initialize, then every page of tools/list, or nothing. */
module Discovery {
  import opened Options
  import opened Json
  import opened JsonCheck
  import opened Canonical
  import opened Request
  import opened Members
  import opened RequestLaws
  import Decimal

  datatype Tool = Tool(name: string, description: string)

  datatype Page = Page(tools: seq<Tool>, next: Option<string>)

  /** What the server sends: a line to skip, an object in broken UTF-8, or a JSON text. */
  datatype Line = Noise | Broken(id: string) | Message(text: Text)

  /** One message to the server. */
  datatype Query = Initialize | Initialized | List(id: string, cursor: Option<string>)

  const MAX_PAGES := 1024

  // ---------- One response ----------

  /** The literal of the id member as the line spells it; None when the line has none. */
  function IdOf(l: Line): Option<string> {
    match l
    case Noise => None
    case Broken(id) => Some(id)
    case Message(t) =>
      if !t.Obj? || Height(t) > MAX_DEPTH || Field(t.members, "id").None? then None
      else Some(Print(Field(t.members, "id").value))
  }

  datatype Answer = Result(value: Text) | Rejected | BadEnvelope

  /** A line with the wanted id, once found, answers or ends the exchange. */
  function AnswerOf(l: Line): Answer {
    if !l.Message? || !l.text.Obj? || !Valid(l.text) then BadEnvelope
    else
      var ms := l.text.members;
      var result, error := Field(ms, "result"), Field(ms, "error");
      if !Version2(ms) || result.Some? == error.Some? || Field(ms, "method").Some? then BadEnvelope
      else if error.Some? then Rejected
      else Result(result.value)
  }

  /** The position of the first line with this id, or the number of lines. */
  function Find(lines: seq<Line>, want: string): (k: nat)
    ensures k <= |lines|
    ensures k < |lines| ==> IdOf(lines[k]) == Some(want)
    ensures forall i | 0 <= i < k :: IdOf(lines[i]) != Some(want)
  {
    if lines == [] || IdOf(lines[0]) == Some(want) then 0 else 1 + Find(lines[1..], want)
  }

  class Connection {
    var lines: seq<Line>         // what the server still has to say
    var sent: seq<Query>
    const accepts: nat -> bool   // whether the n-th write succeeds

    constructor (lines: seq<Line>, accepts: nat -> bool)
      ensures this.lines == lines && sent == [] && this.accepts == accepts
    {
      this.lines, this.sent, this.accepts := lines, [], accepts;
    }

    method Write(q: Query) returns (ok: bool)
      modifies this`sent
      ensures ok == accepts(|old(sent)|)
      ensures sent == if ok then old(sent) + [q] else old(sent)
    {
      ok := accepts(|sent|);
      if ok {
        sent := sent + [q];
      }
    }

    /** Skip to the first line with the wanted id; earlier lines are gone, later ones remain. */
    method ReadResponse(want: string) returns (a: Option<Answer>)
      modifies this`lines
      ensures var k := Find(old(lines), want);
              if k == |old(lines)| then a.None? && lines == []
              else a == Some(AnswerOf(old(lines)[k])) && lines == old(lines)[k + 1..]
    {
      ghost var before := lines;
      ghost var skipped: nat := 0;
      while lines != []
        invariant skipped <= |before| && lines == before[skipped..]
        invariant Find(before, want) == skipped + Find(lines, want)
        decreases |lines|
      {
        var l := lines[0];
        lines := lines[1..];
        if IdOf(l) == Some(want) {
          return Some(AnswerOf(l));
        }
        skipped := skipped + 1;
      }
      a := None;
    }
  }

  // ---------- One page ----------

  function ToolOf(item: Text): Option<Tool> {
    if !item.Obj? then None
    else
      var name, description := Field(item.members, "name"), Field(item.members, "description");
      if StringOf(name) == "" then None
      else if description.None? then Some(Tool(StringOf(name), ""))
      else if !description.value.Str? then None
      else Some(Tool(StringOf(name), StringOf(description)))
  }

  predicate AllTools(items: seq<Text>) {
    forall i | 0 <= i < |items| :: ToolOf(items[i]).Some?
  }

  function ToolsOf(items: seq<Text>): (ts: seq<Tool>)
    requires AllTools(items)
    ensures |ts| == |items| && forall i | 0 <= i < |items| :: ToolOf(items[i]) == Some(ts[i])
  {
    seq(|items|, i requires 0 <= i < |items| => ToolOf(items[i]).value)
  }

  /** The page a result spells; None when it is not one. */
  function PageOf(t: Text): Option<Page> {
    if !t.Obj? then None
    else
      var list, next := Field(t.members, "tools"), Field(t.members, "nextCursor");
      if list.None? || !list.value.Arr? || !AllTools(list.value.elems) then None
      else if next.Some? && !next.value.Str? then None
      else Some(Page(ToolsOf(list.value.elems), if next.None? then None else Some(StringOf(next))))
  }

  function ToolOptions(items: seq<Text>): seq<Option<Tool>> {
    seq(|items|, i requires 0 <= i < |items| => ToolOf(items[i]))
  }

  ghost predicate OptionAt(items: seq<Text>, options: seq<Option<Tool>>, i: nat)
    requires i < |items| == |options|
  {
    options[i] == ToolOf(items[i])
  }

  /** The loop over the items: their tools in order, or nothing when one of them is malformed. */
  method ParseTools(items: seq<Text>, ghost options: seq<Option<Tool>>) returns (tools: Option<seq<Tool>>)
    requires |options| == |items| && forall i | 0 <= i < |items| :: OptionAt(items, options, i)
    ensures tools.Some? <==> forall i | 0 <= i < |options| :: options[i].Some?
    ensures tools.Some? ==> |tools.value| == |options| && forall i | 0 <= i < |options| :: options[i] == Some(tools.value[i])
  {
    var found: seq<Tool> := [];
    for i := 0 to |items|
      invariant |found| == i && forall k | 0 <= k < i :: options[k] == Some(found[k])
    {
      assert OptionAt(items, options, i);
      var tool := ToolOf(items[i]);
      if tool.None? {
        return None;
      }
      found := found + [tool.value];
    }
    tools := Some(found);
  }

  lemma OptionsAre(items: seq<Text>)
    ensures forall i | 0 <= i < |items| :: OptionAt(items, ToolOptions(items), i)
    ensures AllTools(items) <==> forall i | 0 <= i < |items| :: ToolOptions(items)[i].Some?
    ensures AllTools(items) ==> forall i | 0 <= i < |items| :: ToolOptions(items)[i] == Some(ToolsOf(items)[i])
  {
    var options := ToolOptions(items);
    assert forall i | 0 <= i < |items| :: options[i] == ToolOf(items[i]);
  }

  method ParseToolsPage(t: Text) returns (p: Option<Page>)
    ensures p == PageOf(t)
  {
    if !t.Obj? {
      return None;
    }
    var list := Field(t.members, "tools");
    if list.None? || !list.value.Arr? {
      return None;
    }
    OptionsAre(list.value.elems);
    var tools := ParseTools(list.value.elems, ToolOptions(list.value.elems));
    if tools.None? {
      return None;
    }
    assert tools.value == ToolsOf(list.value.elems);
    var next := Field(t.members, "nextCursor");
    if next.None? {
      return Some(Page(tools.value, None));
    }
    if !next.value.Str? {
      return None;
    }
    p := Some(Page(tools.value, Some(StringOf(next))));
  }

  // ---------- The exchange ----------

  /** What an exchange sends and finds; None is any error. */
  datatype Exchange = Exchange(sent: seq<Query>, tools: Option<seq<Tool>>)

  function PageId(n: nat): string { Decimal.Natural(n + 2) }

  /** The result under an id, with the lines left after it. */
  function Taken(a: Answer, rest: seq<Line>): Option<(Text, seq<Line>)> {
    if a.Result? then Some((a.value, rest)) else None
  }

  function ResultFor(lines: seq<Line>, want: string): Option<(Text, seq<Line>)> {
    var k := Find(lines, want);
    if k == |lines| then None else Taken(AnswerOf(lines[k]), lines[k + 1..])
  }

  /** The page the server answers number n with, and the lines left after it. */
  type Turns = (seq<Line>, nat) -> Option<(Page, seq<Line>)>

  function Turn(lines: seq<Line>, n: nat): Option<(Page, seq<Line>)> {
    var got := ResultFor(lines, PageId(n));
    if got.None? || PageOf(got.value.0).None? then None else Some((PageOf(got.value.0).value, got.value.1))
  }

  function PageTurns(): Turns { (lines, n: nat) => Turn(lines, n) }

  /** Pages from number n on. */
  function Follow(turn: Turns, lines: seq<Line>, accepts: nat -> bool, n: nat, cursor: Option<string>,
                  seen: set<string>, sent: seq<Query>, tools: seq<Tool>): Exchange
    decreases MAX_PAGES - n
  {
    if n >= MAX_PAGES || !accepts(|sent|) then Exchange(sent, None)
    else
      var asked := sent + [List(PageId(n), cursor)];
      if turn(lines, n).None? then Exchange(asked, None)
      else
        var (page, rest) := turn(lines, n).value;
        if page.next.None? then Exchange(asked, Some(tools + page.tools))
        else if page.next.value in seen then Exchange(asked, None)
        else Follow(turn, rest, accepts, n + 1, page.next, seen + {page.next.value}, asked, tools + page.tools)
  }

  function Discovered(lines: seq<Line>, accepts: nat -> bool): Exchange {
    if !accepts(0) then Exchange([], None)
    else
      var hello := ResultFor(lines, "1");
      if hello.None? || !accepts(1) then Exchange([Initialize], None)
      else Follow(PageTurns(), hello.value.1, accepts, 0, None, {}, [Initialize, Initialized], [])
  }

  lemma TakenAt(lines: seq<Line>, want: string, a: Option<Answer>, rest: seq<Line>)
    requires var k := Find(lines, want);
             if k == |lines| then a.None? else a == Some(AnswerOf(lines[k])) && rest == lines[k + 1..]
    ensures ResultFor(lines, want) == if a.None? then None else Taken(a.value, rest)
  {
  }

  method ReadResult(c: Connection, want: string) returns (r: Option<Text>)
    modifies c`lines
    ensures r.Some? <==> ResultFor(old(c.lines), want).Some?
    ensures r.Some? ==> ResultFor(old(c.lines), want).value == (r.value, c.lines)
  {
    var a := c.ReadResponse(want);
    TakenAt(old(c.lines), want, a, c.lines);
    r := if a.Some? && a.value.Result? then Some(a.value.value) else None;
  }

  /** Ask for one page and parse the answer. */
  method FetchPage(c: Connection, n: nat, cursor: Option<string>) returns (p: Option<Page>)
    modifies c
    ensures c.sent == if c.accepts(|old(c.sent)|) then old(c.sent) + [List(PageId(n), cursor)] else old(c.sent)
    ensures p.Some? <==> c.accepts(|old(c.sent)|) && Turn(old(c.lines), n).Some?
    ensures p.Some? ==> Turn(old(c.lines), n).value == (p.value, c.lines)
  {
    var ok := c.Write(List(PageId(n), cursor));
    if !ok {
      return None;
    }
    var result := ReadResult(c, PageId(n));
    if result.None? {
      return None;
    }
    p := ParseToolsPage(result.value);
  }

  method Handshake(c: Connection) returns (ok: bool)
    requires c.sent == []
    modifies c
    ensures !ok ==> Discovered(old(c.lines), c.accepts) == Exchange(c.sent, None)
    ensures ok ==> c.sent == [Initialize, Initialized] &&
                   Discovered(old(c.lines), c.accepts) == Follow(PageTurns(), c.lines, c.accepts, 0, None, {}, c.sent, [])
  {
    ok := c.Write(Initialize);
    if !ok {
      return;
    }
    var hello := ReadResult(c, "1");
    if hello.None? {
      return false;
    }
    ok := c.Write(Initialized);
  }

  method Discover(c: Connection) returns (tools: Option<seq<Tool>>)
    requires c.sent == []
    modifies c
    ensures Exchange(c.sent, tools) == Discovered(old(c.lines), c.accepts)
  {
    var ok := Handshake(c);
    if !ok {
      return None;
    }
    var found: seq<Tool>, seen: set<string>, cursor: Option<string> := [], {}, None;
    var page := 0;
    ghost var goal := Discovered(old(c.lines), c.accepts);
    while page < MAX_PAGES
      invariant 0 <= page <= MAX_PAGES
      invariant goal == Follow(PageTurns(), c.lines, c.accepts, page, cursor, seen, c.sent, found)
    {
      assert PageTurns()(c.lines, page) == Turn(c.lines, page);
      var p := FetchPage(c, page, cursor);
      if p.None? {
        return None;
      }
      found := found + p.value.tools;
      if p.value.next.None? {
        return Some(found);
      }
      if p.value.next.value in seen {
        return None;
      }
      seen := seen + {p.value.next.value};
      cursor := p.value.next;
      page := page + 1;
    }
    tools := None;
  }

  // ---------- Complete or nothing ----------

  function Concat(pages: seq<Page>): seq<Tool> {
    if pages == [] then [] else pages[0].tools + Concat(pages[1..])
  }

  /** pages are the server's answers from number n on, each under its own id, to the last one. */
  predicate Walk(turn: Turns, lines: seq<Line>, n: nat, seen: set<string>, pages: seq<Page>)
    decreases |pages|
  {
    && pages != [] && n < MAX_PAGES
    && turn(lines, n).Some? && turn(lines, n).value.0 == pages[0]
    && if pages[0].next.None? then |pages| == 1
       else pages[0].next.value !in seen
            && Walk(turn, turn(lines, n).value.1, n + 1, seen + {pages[0].next.value}, pages[1..])
  }

  lemma Regroup(a: seq<Tool>, b: seq<Tool>, c: seq<Tool>)
    ensures (a + b) + c == a + (b + c)
  {
  }

  /** The next n writes after the first from succeed. */
  predicate Accepts(accepts: nat -> bool, from: nat, n: nat) {
    forall i | from <= i < from + n :: accepts(i)
  }

  lemma {:induction false} FollowWalks(turn: Turns, lines: seq<Line>, accepts: nat -> bool, n: nat,
                                       cursor: Option<string>, seen: set<string>, sent: seq<Query>, tools: seq<Tool>)
      returns (pages: seq<Page>)
    requires Follow(turn, lines, accepts, n, cursor, seen, sent, tools).tools.Some?
    ensures Walk(turn, lines, n, seen, pages) && Accepts(accepts, |sent|, |pages|)
    ensures Follow(turn, lines, accepts, n, cursor, seen, sent, tools).tools == Some(tools + Concat(pages))
    decreases MAX_PAGES - n
  {
    var (page, rest) := turn(lines, n).value;
    if page.next.None? {
      pages := [page];
      assert pages[1..] == [] && page.tools + [] == page.tools;
      assert Concat(pages) == page.tools;
    } else {
      var later := FollowWalks(turn, rest, accepts, n + 1, page.next, seen + {page.next.value},
                               sent + [List(PageId(n), cursor)], tools + page.tools);
      pages := [page] + later;
      assert pages[1..] == later;
      Regroup(tools, page.tools, Concat(later));
    }
  }

  lemma {:induction false} WalkFollows(turn: Turns, lines: seq<Line>, accepts: nat -> bool, n: nat,
                                       cursor: Option<string>, seen: set<string>, sent: seq<Query>, tools: seq<Tool>,
                                       pages: seq<Page>)
    requires Walk(turn, lines, n, seen, pages) && Accepts(accepts, |sent|, |pages|)
    ensures Follow(turn, lines, accepts, n, cursor, seen, sent, tools).tools == Some(tools + Concat(pages))
    decreases |pages|
  {
    var (page, rest) := turn(lines, n).value;
    if page.next.None? {
      assert pages[1..] == [] && page.tools + [] == page.tools;
      assert Concat(pages) == page.tools;
    } else {
      WalkFollows(turn, rest, accepts, n + 1, page.next, seen + {page.next.value},
                  sent + [List(PageId(n), cursor)], tools + page.tools, pages[1..]);
      Regroup(tools, page.tools, Concat(pages[1..]));
    }
  }

  /** These pages are a whole walk, and a request was taken for each of them. */
  predicate Walked(turn: Turns, rest: seq<Line>, accepts: nat -> bool, pages: seq<Page>) {
    Walk(turn, rest, 0, {}, pages) && Accepts(accepts, 2, |pages|)
  }

  lemma WalkedExactly(turn: Turns, rest: seq<Line>, accepts: nat -> bool, tools: seq<Tool>)
    ensures Follow(turn, rest, accepts, 0, None, {}, [Initialize, Initialized], []).tools == Some(tools) <==>
            exists pages :: Walked(turn, rest, accepts, pages) && tools == Concat(pages)
  {
    if Follow(turn, rest, accepts, 0, None, {}, [Initialize, Initialized], []).tools == Some(tools) {
      var pages := FollowWalks(turn, rest, accepts, 0, None, {}, [Initialize, Initialized], []);
      assert [] + Concat(pages) == Concat(pages);
      assert Walked(turn, rest, accepts, pages);
    }
    if exists pages :: Walked(turn, rest, accepts, pages) && tools == Concat(pages) {
      var pages :| Walked(turn, rest, accepts, pages) && tools == Concat(pages);
      WalkFollows(turn, rest, accepts, 0, None, {}, [Initialize, Initialized], [], pages);
      assert [] + Concat(pages) == Concat(pages);
    }
  }

  /**
   Discovery is complete or fails: whatever the server does and whenever it stops taking
   requests, tools are returned exactly when initialize and every page from the first to
   the one without a cursor were asked for and answered, and then they are those pages'
   tools in order.
   */
  lemma CompleteOrNothing(lines: seq<Line>, accepts: nat -> bool, tools: seq<Tool>)
    ensures Discovered(lines, accepts).tools == Some(tools) <==>
            && accepts(0) && accepts(1) && ResultFor(lines, "1").Some?
            && exists pages :: Walked(PageTurns(), ResultFor(lines, "1").value.1, accepts, pages) && tools == Concat(pages)
  {
    if ResultFor(lines, "1").Some? {
      WalkedExactly(PageTurns(), ResultFor(lines, "1").value.1, accepts, tools);
    }
  }

  // ---------- What pages and answers are, told by members ----------

  /** A tool as the server describes it: a nonempty name, and a description if one is given. */
  ghost predicate ToolSpelled(e: Text, tool: Tool) {
    && e.Obj? && tool.name != "" && HoldsString(e.members, "name", tool.name)
    && (if Lacks(e.members, "description") then tool.description == ""
        else HoldsString(e.members, "description", tool.description))
  }

  ghost predicate ToolsSpelled(elems: seq<Text>, tools: seq<Tool>) {
    |tools| == |elems| && forall i | 0 <= i < |elems| :: ToolSpelled(elems[i], tools[i])
  }

  /** The cursor is that of the member "nextCursor"; no such member, no next page. */
  ghost predicate NextSpelled(ms: seq<Member>, next: Option<string>) {
    if next.None? then Lacks(ms, "nextCursor") else HoldsString(ms, "nextCursor", next.value)
  }

  /** A result text lists these tools, in its order, and names this next page. */
  ghost predicate PageSpelled(t: Text, page: Page) {
    && t.Obj? && NextSpelled(t.members, page.next)
    && exists elems :: Holds(t.members, "tools", Arr(elems)) && ToolsSpelled(elems, page.tools)
  }

  /** A member that is a string, with names distinct, spells what its lookup decodes to. */
  lemma FieldDecodes(ms: seq<Member>, name: string)
    requires Strict(Obj(ms)) && Field(ms, name).Some?
    ensures forall s :: HoldsString(ms, name, s) <==> Field(ms, name).value.Str? && StringOf(Field(ms, name)) == s
  {
    FieldIsMember(ms, name);
    var k := Pick(GO_MAP, ms, name).value;
    assert ms[k] in ms && NamedAt(ms, k, name);
    forall s ensures HoldsString(ms, name, s) <==> Field(ms, name).value.Str? && StringOf(Field(ms, name)) == s {
      if HoldsString(ms, name, s) {
        var i :| 0 <= i < |ms| && NamedAt(ms, i, name) && Spells(ms[i].value, s);
        OneOfName(ms, i, k, name);
      }
      if Field(ms, name).value.Str? && StringOf(Field(ms, name)) == s {
        assert Spells(ms[k].value, s);
      }
    }
  }

  lemma LackedString(ms: seq<Member>, name: string, s: string)
    requires Lacks(ms, name)
    ensures !HoldsString(ms, name, s)
  {
  }

  lemma ToolExactly(e: Text, tool: Tool)
    requires Strict(e)
    ensures ToolOf(e) == Some(tool) <==> ToolSpelled(e, tool)
  {
    if e.Obj? {
      var ms := e.members;
      FieldIsMember(ms, "description");
      if tool.name != "" { FieldSpells(ms, "name", tool.name); }
      if Field(ms, "description").Some? { FieldDecodes(ms, "description"); }
    }
  }

  lemma NextExactly(ms: seq<Member>, next: Option<string>)
    requires Strict(Obj(ms))
    ensures var f := Field(ms, "nextCursor");
            NextSpelled(ms, next) <==>
            if f.None? then next.None? else f.value.Str? && next == Some(StringOf(f))
  {
    FieldIsMember(ms, "nextCursor");
    if Field(ms, "nextCursor").Some? {
      FieldDecodes(ms, "nextCursor");
    } else if next.Some? {
      LackedString(ms, "nextCursor", next.value);
    }
  }

  lemma ToolsExactly(elems: seq<Text>, tools: seq<Tool>)
    requires forall e | e in elems :: Strict(e)
    ensures AllTools(elems) && ToolsOf(elems) == tools <==> ToolsSpelled(elems, tools)
  {
    if AllTools(elems) && ToolsOf(elems) == tools {
      forall i | 0 <= i < |elems| ensures ToolSpelled(elems[i], tools[i]) { ToolExactly(elems[i], tools[i]); }
    }
    if ToolsSpelled(elems, tools) {
      forall i | 0 <= i < |elems| ensures ToolOf(elems[i]) == Some(tools[i]) { ToolExactly(elems[i], tools[i]); }
    }
  }

  lemma ListExactly(ms: seq<Member>, tools: seq<Tool>)
    requires Strict(Obj(ms))
    ensures var list := Field(ms, "tools");
            (exists elems :: Holds(ms, "tools", Arr(elems)) && ToolsSpelled(elems, tools)) <==>
            list.Some? && list.value.Arr? && AllTools(list.value.elems) && ToolsOf(list.value.elems) == tools
  {
    FieldIsMember(ms, "tools");
    var list := Field(ms, "tools");
    if list.Some? && list.value.Arr? {
      var k := Pick(GO_MAP, ms, "tools").value;
      assert ms[k] in ms && Strict(list.value);
      ToolsExactly(list.value.elems, tools);
      assert Holds(ms, "tools", Arr(list.value.elems));
    }
  }

  /** The page parsed from a result is exactly the page the result spells. */
  lemma PageExactly(t: Text, page: Page)
    requires Strict(t)
    ensures PageOf(t) == Some(page) <==> PageSpelled(t, page)
  {
    if t.Obj? {
      ListExactly(t.members, page.tools);
      NextExactly(t.members, page.next);
    }
  }

  /** A result is taken from a line exactly when the line is a valid 2.0 response with that result. */
  lemma AnswerExactly(l: Line, v: Text)
    ensures AnswerOf(l) == Result(v) <==>
            l.Message? && l.text.Obj? && Valid(l.text)
            && HoldsString(l.text.members, "jsonrpc", "2.0") && Holds(l.text.members, "result", v)
            && Lacks(l.text.members, "error") && Lacks(l.text.members, "method")
  {
    if l.Message? && l.text.Obj? && Valid(l.text) {
      var ms := l.text.members;
      FieldSpells(ms, "jsonrpc", "2.0");
      FieldIsMember(ms, "result");
      FieldIsMember(ms, "error");
      FieldIsMember(ms, "method");
    }
  }

  lemma ResultStrict(l: Line, v: Text)
    requires AnswerOf(l) == Result(v)
    ensures Strict(v)
  {
    AnswerExactly(l, v);
    var ms := l.text.members;
    var i :| 0 <= i < |ms| && NamedAt(ms, i, "result") && ms[i].value == v;
    assert ms[i] in ms;
  }

  // ---------- Completeness over the texts the server sent ----------

  /**
   results are the server's results from number n on, each the first under its own id after
   the one before, and pages what they spell, up to one that names no next page.
   */
  ghost predicate Served(lines: seq<Line>, n: nat, seen: set<string>, results: seq<Text>, pages: seq<Page>)
    decreases |pages|
  {
    && |results| == |pages| > 0 && n < MAX_PAGES
    && ResultFor(lines, PageId(n)).Some? && ResultFor(lines, PageId(n)).value.0 == results[0]
    && PageSpelled(results[0], pages[0])
    && if pages[0].next.None? then |pages| == 1
       else pages[0].next.value !in seen
            && Served(ResultFor(lines, PageId(n)).value.1, n + 1, seen + {pages[0].next.value}, results[1..], pages[1..])
  }

  lemma TurnExactly(lines: seq<Line>, n: nat, page: Page)
    ensures var got := ResultFor(lines, PageId(n));
            Turn(lines, n).Some? && Turn(lines, n).value.0 == page <==> got.Some? && PageSpelled(got.value.0, page)
    ensures Turn(lines, n).Some? ==> Turn(lines, n).value.1 == ResultFor(lines, PageId(n)).value.1
  {
    var got := ResultFor(lines, PageId(n));
    if got.Some? {
      ResultStrict(lines[Find(lines, PageId(n))], got.value.0);
      PageExactly(got.value.0, page);
    }
  }

  lemma {:induction false} WalkServed(lines: seq<Line>, n: nat, seen: set<string>, pages: seq<Page>)
      returns (results: seq<Text>)
    requires Walk(PageTurns(), lines, n, seen, pages)
    ensures Served(lines, n, seen, results, pages)
    decreases |pages|
  {
    assert PageTurns()(lines, n) == Turn(lines, n);
    TurnExactly(lines, n, pages[0]);
    var (result, rest) := ResultFor(lines, PageId(n)).value;
    if pages[0].next.None? {
      results := [result];
    } else {
      var later := WalkServed(rest, n + 1, seen + {pages[0].next.value}, pages[1..]);
      results := [result] + later;
      assert results[1..] == later;
    }
  }

  lemma {:induction false} ServedWalk(lines: seq<Line>, n: nat, seen: set<string>, results: seq<Text>, pages: seq<Page>)
    requires Served(lines, n, seen, results, pages)
    ensures Walk(PageTurns(), lines, n, seen, pages)
    decreases |pages|
  {
    assert PageTurns()(lines, n) == Turn(lines, n);
    TurnExactly(lines, n, pages[0]);
    if pages[0].next.Some? {
      ServedWalk(ResultFor(lines, PageId(n)).value.1, n + 1, seen + {pages[0].next.value}, results[1..], pages[1..]);
    }
  }

  /** All that the server served after its answer to initialize, a request taken for each page. */
  ghost predicate ServedAll(rest: seq<Line>, accepts: nat -> bool, results: seq<Text>, pages: seq<Page>) {
    Served(rest, 0, {}, results, pages) && Accepts(accepts, 2, |pages|)
  }

  lemma WalkedServed(rest: seq<Line>, accepts: nat -> bool, pages: seq<Page>) returns (results: seq<Text>)
    requires Walked(PageTurns(), rest, accepts, pages)
    ensures ServedAll(rest, accepts, results, pages)
  {
    results := WalkServed(rest, 0, {}, pages);
  }

  lemma ServedWalked(rest: seq<Line>, accepts: nat -> bool, results: seq<Text>, pages: seq<Page>)
    requires ServedAll(rest, accepts, results, pages)
    ensures Walked(PageTurns(), rest, accepts, pages)
  {
    ServedWalk(rest, 0, {}, results, pages);
  }

  lemma ServedExactly(rest: seq<Line>, accepts: nat -> bool, tools: seq<Tool>)
    ensures (exists pages :: Walked(PageTurns(), rest, accepts, pages) && tools == Concat(pages)) <==>
            (exists results, pages :: ServedAll(rest, accepts, results, pages) && tools == Concat(pages))
  {
    if exists pages :: Walked(PageTurns(), rest, accepts, pages) && tools == Concat(pages) {
      var pages :| Walked(PageTurns(), rest, accepts, pages) && tools == Concat(pages);
      var results := WalkedServed(rest, accepts, pages);
    }
    if exists results, pages :: ServedAll(rest, accepts, results, pages) && tools == Concat(pages) {
      var results, pages :| ServedAll(rest, accepts, results, pages) && tools == Concat(pages);
      ServedWalked(rest, accepts, results, pages);
    }
  }

  /**
   Complete or nothing, told by the texts: tools are returned exactly when every request was
   taken and the result texts, from the first to one without a nextCursor, list them.
   */
  lemma CompleteOverTexts(lines: seq<Line>, accepts: nat -> bool, tools: seq<Tool>)
    ensures Discovered(lines, accepts).tools == Some(tools) <==>
            && accepts(0) && accepts(1) && ResultFor(lines, "1").Some?
            && exists results, pages ::
                 ServedAll(ResultFor(lines, "1").value.1, accepts, results, pages) && tools == Concat(pages)
  {
    CompleteOrNothing(lines, accepts, tools);
    if ResultFor(lines, "1").Some? { ServedExactly(ResultFor(lines, "1").value.1, accepts, tools); }
  }

  // ---------- What is asked ----------

  function CursorOf(q: Query): Option<string> { if q.List? then q.cursor else None }

  /** n pages asked for: numbered in order, the first without a cursor, the others with different ones. */
  predicate Asked(sent: seq<Query>, n: nat) {
    && |sent| == n + 2 && sent[0] == Initialize && sent[1] == Initialized
    && (forall i | 2 <= i < |sent| :: sent[i] == List(PageId(i - 2), CursorOf(sent[i])))
    && (forall i | 2 <= i < |sent| :: CursorOf(sent[i]).None? <==> i == 2)
    && (forall i, j | 2 <= i < j < |sent| :: CursorOf(sent[i]) != CursorOf(sent[j]))
  }

  /** The cursors asked with before are among those seen. */
  predicate Within(sent: seq<Query>, seen: set<string>) {
    forall i | 0 <= i < |sent| :: CursorOf(sent[i]).Some? ==> CursorOf(sent[i]).value in seen
  }

  /** The next cursor to ask with is new. */
  predicate Fresh(n: nat, cursor: Option<string>, before: set<string>, seen: set<string>) {
    if n == 0 then cursor.None? && seen == before
    else cursor.Some? && cursor.value !in before && seen == before + {cursor.value}
  }

  lemma AskMore(sent: seq<Query>, n: nat, cursor: Option<string>, before: set<string>, seen: set<string>)
    requires Asked(sent, n) && Within(sent, before) && Fresh(n, cursor, before, seen)
    ensures Asked(sent + [List(PageId(n), cursor)], n + 1) && Within(sent + [List(PageId(n), cursor)], seen)
  {
  }

  ghost predicate Polite(sent: seq<Query>) {
    exists m: nat :: m <= MAX_PAGES && Asked(sent, m)
  }

  lemma {:induction false} FollowAsks(turn: Turns, lines: seq<Line>, accepts: nat -> bool, n: nat,
                                      cursor: Option<string>, seen: set<string>, sent: seq<Query>, tools: seq<Tool>,
                                      before: set<string>)
    requires Asked(sent, n) && Within(sent, before) && n <= MAX_PAGES && Fresh(n, cursor, before, seen)
    ensures Polite(Follow(turn, lines, accepts, n, cursor, seen, sent, tools).sent)
    decreases MAX_PAGES - n
  {
    if n < MAX_PAGES && accepts(|sent|) {
      var asked := sent + [List(PageId(n), cursor)];
      AskMore(sent, n, cursor, before, seen);
      if turn(lines, n).Some? && turn(lines, n).value.0.next.Some? && turn(lines, n).value.0.next.value !in seen {
        var (page, rest) := turn(lines, n).value;
        FollowAsks(turn, rest, accepts, n + 1, page.next, seen + {page.next.value}, asked, tools + page.tools, seen);
      }
    }
  }

  /** Whatever the server does: at most 1024 pages are asked for and no cursor twice. */
  lemma NeverAsksTwice(lines: seq<Line>, accepts: nat -> bool)
    ensures |Discovered(lines, accepts).sent| <= 1 || Polite(Discovered(lines, accepts).sent)
  {
    var hello := ResultFor(lines, "1");
    if accepts(0) && hello.Some? && accepts(1) {
      FollowAsks(PageTurns(), hello.value.1, accepts, 0, None, {}, [Initialize, Initialized], [], {});
    }
  }

  /** An answer to one page's id is never taken for another page. */
  lemma AnswersStayApart(lines: seq<Line>, m: nat, n: nat)
    requires m != n && Find(lines, PageId(n)) < |lines|
    ensures IdOf(lines[Find(lines, PageId(n))]) != Some(PageId(m))
  {
    if PageId(m) == PageId(n) { Decimal.NaturalInjective(m + 2, n + 2); }
  }
}
