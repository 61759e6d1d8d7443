/** What the operations on tunnel clients leave behind for those who read the table, the file and the interface. */
module TunnelTable {
  import opened Options
  import opened Text
  import opened PortForward
  import opened Tunnel
  import opened Hooks
  import opened HookLines
  import opened Ipam
  import opened TunnelClients
  import Firewall
  import HookReader
  import QuickConfig

  // ---------- the rows ----------

  lemma {:induction false} FindSaved(rows: seq<Client>, c: Client, id: int)
    requires Sorted(rows)
    ensures Find(Saved(rows, c), id) == if id == c.id then Some(c) else Find(rows, id)
  {
    if rows == [] {
      FindLast([], c, id);
    } else {
      var front, last := rows[..|rows| - 1], rows[|rows| - 1];
      assert rows == front + [last];
      FindLast(front, last, id);
      if last.id < c.id {
        FindLast(rows, c, id);
      } else if last.id == c.id {
        FindLast(front, c, id);
      } else {
        FindSaved(front, c, id);
        FindLast(Saved(front, c), last, id);
      }
    }
  }

  lemma FindLast(front: seq<Client>, last: Client, id: int)
    ensures Find(front + [last], id) == if last.id == id then Some(last) else Find(front, id)
  {
    assert (front + [last])[..|front|] == front;
  }

  lemma {:induction false} FindWithout(rows: seq<Client>, x: int, id: int)
    requires Sorted(rows)
    ensures Find(Without(rows, x), id) == if id == x then None else Find(rows, id)
  {
    if rows != [] {
      var front, last := rows[..|rows| - 1], rows[|rows| - 1];
      assert rows == front + [last];
      FindLast(front, last, id);
      if last.id == x {
        if id == x { NotBelow(front, x); }
      } else {
        FindWithout(front, x, id);
        FindLast(Without(front, x), last, id);
      }
    }
  }

  /** Under the id a reader finds what is given, and under every other id what was there before. */
  ghost predicate Only(before: seq<Client>, after: seq<Client>, id: int, c: Option<Client>) {
    forall i :: Find(after, i) == if i == id then c else Find(before, i)
  }

  /** A row as it is stored: its ports in canonical form, which mean what was asked for. */
  predicate StoredAs(req: Client, c: Client) {
    c == req.(forwardedPorts := c.forwardedPorts) && ParseResult(c.forwardedPorts) == ParseResult(req.forwardedPorts)
  }

  lemma CanonicalIsStored(req: Client)
    ensures StoredAs(req, req.(forwardedPorts := Canonical(req.forwardedPorts)))
  {
    hide ParseResult, Canonical;
    ParseOfCanonical(req.forwardedPorts);
  }

  lemma UpdateStores(u: Setup, s: State, req: Client)
    requires Ordered(s)
    ensures exists c :: StoredAs(req, c) && Only(s.rows, AfterUpdate(u, s, req).rows, req.id, Some(c))
  {
    hide ParseResult, Canonical, Saved, Find, FileFor, Diffed, HookReader.HookCommands, StoredAs;
    var c := req.(forwardedPorts := Canonical(req.forwardedPorts));
    CanonicalIsStored(req);
    forall i ensures Find(Saved(s.rows, c), i) == if i == c.id then Some(c) else Find(s.rows, i) {
      FindSaved(s.rows, c, i);
    }
    ReappliedKeepsRows(u, s.(rows := Saved(s.rows, c), nextId := if c.id >= s.nextId then c.id + 1 else s.nextId),
                       Find(s.rows, c.id), Some(c));
    assert Only(s.rows, AfterUpdate(u, s, req).rows, req.id, Some(c));
  }

  /** Each operation changes one row: an addition stores the request under a new id with the allocated addresses, an
      edit stores it under its own, a toggle changes the flag, a deletion removes the row; the rest changes none. */
  ghost predicate RowsFollow(s: State, step: Step, t: State) {
    match step
    case Add(req, ipv4, ipv6) =>
      Find(s.rows, s.nextId).None?
      && exists c :: AddedAs(req, s.nextId, ipv4, ipv6, c) && Only(s.rows, t.rows, s.nextId, Some(c))
    case Update(req) => exists c :: StoredAs(req, c) && Only(s.rows, t.rows, req.id, Some(c))
    case Delete(id) => Only(s.rows, t.rows, id, None)
    case Toggle(id, enable) =>
      (match Find(s.rows, id)
       case None => t == s
       case Some(was) => exists c :: StoredAs(was.(enable := enable), c) && Only(s.rows, t.rows, id, Some(c)))
    case _ => t.rows == s.rows
  }

  /** The request with its new id and addresses; the tunnel admits exactly these addresses. */
  ghost predicate AddedAs(req: Client, id: int, ipv4: string, ipv6: string, c: Client) {
    c.id == id && c.ipv4Address == ipv4 && c.ipv6Address == ipv6
    && StoredAs(req.(id := id, ipv4Address := ipv4, ipv6Address := ipv6, allowedIPs := c.allowedIPs), c)
    && (forall net :: QuickConfig.Prefixes(net, c.allowedIPs)
                      == QuickConfig.Prefixes(net, ipv4)
                         + if ipv6 == "" then [] else QuickConfig.Prefixes(net, ipv6))
  }

  lemma NewRowIsAdded(u: Setup, req: Client, id: int, ipv4: string, ipv6: string)
    ensures AddedAs(req, id, ipv4, ipv6, NewRow(u, req, id, ipv4, ipv6))
  {
    hide ParseResult, Canonical, QuickConfig.Prefixes;
    ParseOfCanonical(req.forwardedPorts);
    var c := NewRow(u, req, id, ipv4, ipv6);
    forall net
      ensures QuickConfig.Prefixes(net, c.allowedIPs)
              == QuickConfig.Prefixes(net, ipv4) + if ipv6 == "" then [] else QuickConfig.Prefixes(net, ipv6)
    {
      QuickConfig.PrefixesJoin(net, ipv4, ipv6);
    }
  }

  lemma AddStores(u: Setup, s: State, req: Client, ipv4: string, ipv6: string)
    requires Ordered(s)
    ensures RowsFollow(s, Step.Add(req, ipv4, ipv6), Next(u, s, Step.Add(req, ipv4, ipv6)))
  {
    hide NewRow, AddedAs, Find, AfterAdd;
    var c := NewRow(u, req, s.nextId, ipv4, ipv6);
    NewRowIsAdded(u, req, s.nextId, ipv4, ipv6);
    NewRowHasId(u, req, s.nextId, ipv4, ipv6);
    AddedRows(u, s, c);
    NotBelow(s.rows, s.nextId);
    forall i ensures Find(s.rows + [c], i) == if i == s.nextId then Some(c) else Find(s.rows, i) {
      FindLast(s.rows, c, i);
    }
    assert Only(s.rows, AfterAdd(u, s, c).rows, s.nextId, Some(c));
  }

  lemma NewRowHasId(u: Setup, req: Client, id: int, ipv4: string, ipv6: string)
    ensures NewRow(u, req, id, ipv4, ipv6).id == id
  {}

  lemma DeleteRemoves(u: Setup, s: State, id: int)
    requires Ordered(s)
    ensures Only(s.rows, AfterDelete(u, s, id).rows, id, None)
  {
    hide Find, Without, FileFor, Diffed, HookReader.HookCommands;
    forall i ensures Find(Without(s.rows, id), i) == if i == id then None else Find(s.rows, i) {
      FindWithout(s.rows, id, i);
    }
    ReappliedKeepsRows(u, s.(rows := Without(s.rows, id)), Find(s.rows, id), None);
  }

  lemma OperationsChangeOneRow(u: Setup, s: State, step: Step)
    requires Ordered(s)
    ensures RowsFollow(s, step, Next(u, s, step))
  {
    hide Ordered, Find, AfterAdd, AfterUpdate, AfterDelete, AfterSwitch, TakenDown, StoredAs, AddedAs, Only;
    match step {
      case Add(req, ipv4, ipv6) => AddStores(u, s, req, ipv4, ipv6);
      case Update(req) => UpdateStores(u, s, req);
      case Delete(id) => DeleteRemoves(u, s, id);
      case Toggle(id, enable) =>
        FindHasId(s.rows, id);
        if Find(s.rows, id).Some? { UpdateStores(u, s, Find(s.rows, id).value.(enable := enable)); }
      case Switch(on) => SwitchedRows(u, s, on);
      case Down => SwitchedRows(u, s, false);
    }
  }

  // ---------- the interface and the file ----------

  /** The operation applies the config: an addition and an enabling always do, a change of a row on an enabled server.
      */
  predicate Applies(s: State, step: Step) {
    match step
    case Add(_, _, _) => true
    case Update(_) => s.enabled
    case Delete(id) => s.enabled && Find(s.rows, id).Some?
    case Toggle(id, _) => s.enabled && Find(s.rows, id).Some?
    case Switch(on) => on
    case Down => false
  }

  /** Enabling brings the interface up and disabling takes it down; additions enable; whatever applies the config leaves
      an interface that is up and a file for the new table, and nothing else touches either. */
  lemma InterfaceFollows(u: Setup, s: State, step: Step)
    ensures var t := Next(u, s, step);
            && t.enabled == (if step.Switch? then step.on else s.enabled || step.Add?)
            && t.up == (if Applies(s, step) then true else if step.Switch? || step.Down? then false else s.up)
            && t.conf == if Applies(s, step) then FileFor(u, t.rows) else s.conf
  {
    hide Find, Saved, Without, Canonical, Diffed, FileFor, HookReader.HookCommands;
  }

  // ---------- plain requests ----------

  /** No field is more than one line, and those that the hooks print are words of a shell command. */
  predicate PlainRow(c: Client) { OneLineClient(c) && ClientFits(Word, c.(enable := true)) }

  ghost predicate PlainRows(rows: seq<Client>) { forall i :: 0 <= i < |rows| ==> PlainRow(rows[i]) }

  ghost predicate PlainSetup(u: Setup) {
    u.server.postUp == "" && u.server.postDown == "" && OneLineServer(u.server) && OneLine(u.detected)
    && ServerFits(Word, u.server, u.detected) && forall a :: Fits(Word, u.notation.format(a))
  }

  predicate PlainStep(step: Step) {
    match step
    case Add(req, _, _) => PlainRow(req)
    case Update(req) => PlainRow(req)
    case _ => true
  }

  lemma PlainRowsRun(u: Setup, rows: seq<Client>)
    requires PlainSetup(u) && PlainRows(rows)
    ensures Runs(u, rows)
  {
    hide HookReader.HooksRun, OneLineServer, ServerFits, OneLineClient, Fits;
    forall i | 0 <= i < |rows| ensures ClientFits(Word, rows[i]) && OneLineClient(rows[i]) {
      assert PlainRow(rows[i]);
    }
    HookReader.PlainHooksRun(u.server, rows, u.detected);
  }

  lemma {:induction false} SavedArePlain(rows: seq<Client>, c: Client)
    requires PlainRows(rows) && PlainRow(c)
    ensures PlainRows(Saved(rows, c))
  {
    hide PlainRow;
    if rows != [] && rows[|rows| - 1].id > c.id { SavedArePlain(rows[..|rows| - 1], c); }
  }

  lemma {:induction false} OthersArePlain(rows: seq<Client>, id: int)
    requires PlainRows(rows)
    ensures PlainRows(Without(rows, id)) && (Find(rows, id).Some? ==> PlainRow(Find(rows, id).value))
  {
    hide PlainRow;
    if rows != [] { OthersArePlain(rows[..|rows| - 1], id); }
  }

  lemma QuadIsPlain(a: uint32)
    ensures Fits(Word, DottedQuad(a)) && OneLine(DottedQuad(a) + "/32")
  {
    hide Itoa, Octets, Fits;
    var o := Octets(a);
    var w := Itoa(o[0]) + "." + Itoa(o[1]) + "." + Itoa(o[2]) + "." + Itoa(o[3]);
    FourJoined(Itoa(o[0]), Itoa(o[1]), Itoa(o[2]), Itoa(o[3]));
    FixedFits(Word, ".");
    NumbersFit(Word, o[0]);
    NumbersFit(Word, o[1]);
    NumbersFit(Word, o[2]);
    NumbersFit(Word, o[3]);
    FitConcat(Word, Itoa(o[0]), ".");
    FitConcat(Word, Itoa(o[0]) + ".", Itoa(o[1]));
    FitConcat(Word, Itoa(o[0]) + "." + Itoa(o[1]), ".");
    FitConcat(Word, Itoa(o[0]) + "." + Itoa(o[1]) + ".", Itoa(o[2]));
    FitConcat(Word, Itoa(o[0]) + "." + Itoa(o[1]) + "." + Itoa(o[2]), ".");
    FitConcat(Word, Itoa(o[0]) + "." + Itoa(o[1]) + "." + Itoa(o[2]) + ".", Itoa(o[3]));
    FixedFits(Word, "/32");
    FitConcat(Word, w, "/32");
    PlainIsOneLine(DottedQuad(a) + "/32");
  }

  lemma FourJoined(a: string, b: string, c: string, d: string)
    ensures Join([a, b, c, d], ".") == a + "." + b + "." + c + "." + d
  {
    assert [a, b, c, d][1..] == [b, c, d] && [b, c, d][1..] == [c, d] && [c, d][1..] == [d];
    assert Join([c, d], ".") == c + "." + d;
    assert Join([b, c, d], ".") == b + "." + (c + "." + d);
    assert a + "." + (b + "." + (c + "." + d)) == a + "." + b + "." + c + "." + d;
  }

  lemma PlainIsOneLine(s: string)
    requires Fits(Word, s)
    ensures OneLine(s)
  {}

  /** The addresses an allocation answers are plain. */
  lemma AllocatedArePlain(u: Setup, rows: seq<Client>, ipv4: string)
    requires Allocated4(u, rows, ipv4)
    ensures OneLine(ipv4) && Fits(Word, StripMask(ipv4))
  {
    hide ReadQuad, DottedQuad, Fits, StripMask, LowestFree4;
    var off: nat :| LowestFree4(u.pool4, u.server.ipv4Address, Addresses4(rows), off)
                    && Answers4(ipv4, u.pool4.network + off);
    var a := ReadQuad(StripMask(ipv4)).value;
    QuadIsUnique(StripMask(ipv4), a);
    QuadIsPlain(a);
  }

  lemma NewRowIsPlain(u: Setup, rows: seq<Client>, req: Client, id: int, ipv4: string, ipv6: string)
    requires PlainSetup(u) && PlainRow(req) && Allocated4(u, rows, ipv4)
    requires if AllocatesIPv6(u) then Faithful(u.notation) && Allocated6(u, rows, ipv6) else ipv6 == req.ipv6Address
    ensures PlainRow(NewRow(u, req, id, ipv4, ipv6))
  {
    hide StripMask, Allocated4, Canonical, ServerFits, OneLineServer, Fits, LowestFree6, Faithful, OneLine;
    AllocatedArePlain(u, rows, ipv4);
    if AllocatesIPv6(u) {
      var off: nat :| LowestFree6(u.pool6, u.server.ipv6Address, Addresses6(rows), u.notation, off)
                      && u.pool6.network + off < TWO128
                      && ipv6 == u.notation.format(u.pool6.network + off) + "/128";
      FormattedStrips(u.notation, u.pool6.network + off);
      FixedFits(Word, "/128");
      FitConcat(Word, u.notation.format(u.pool6.network + off), "/128");
      PlainIsOneLine(ipv6);
    }
    ListIsOneLine(ipv4, ipv6);
  }

  lemma ListIsOneLine(a: string, b: string)
    requires OneLine(a) && OneLine(b)
    ensures OneLine(a + ", " + b)
  {}

  lemma OneMoreIsPlain(rows: seq<Client>, c: Client)
    requires PlainRows(rows) && PlainRow(c)
    ensures PlainRows(rows + [c])
  {
    hide PlainRow;
  }

  lemma AddKeepsPlain(u: Setup, s: State, req: Client, ipv4: string, ipv6: string)
    requires PlainSetup(u) && Faithful(u.notation) && PlainRows(s.rows) && PlainRow(req)
    requires Enabled(u, s, Step.Add(req, ipv4, ipv6))
    ensures PlainRows(AfterAdd(u, s, NewRow(u, req, s.nextId, ipv4, ipv6)).rows)
  {
    hide PlainSetup, PlainRow, PlainRows, Allocated4, Allocated6, Faithful, AfterAdd, NewRow;
    var c := NewRow(u, req, s.nextId, ipv4, ipv6);
    NewRowIsPlain(u, s.rows, req, s.nextId, ipv4, ipv6);
    AddedRows(u, s, c);
    OneMoreIsPlain(s.rows, c);
  }

  lemma ToggleKeepsPlain(u: Setup, s: State, id: int, enable: bool)
    requires PlainRows(s.rows)
    ensures PlainRows(AfterToggle(u, s, id, enable).rows)
  {
    hide PlainRow, PlainRows, Find, AfterUpdate;
    OthersArePlain(s.rows, id);
    if Find(s.rows, id).Some? {
      FlagIsPlain(Find(s.rows, id).value, enable);
      UpdateKeepsPlain(u, s, Find(s.rows, id).value.(enable := enable));
    }
  }

  lemma NextKeepsPlain(u: Setup, s: State, step: Step)
    requires PlainSetup(u) && Faithful(u.notation) && PlainRows(s.rows) && PlainStep(step) && Enabled(u, s, step)
    ensures PlainRows(Next(u, s, step).rows)
  {
    hide PlainSetup, PlainRow, PlainRows, Enabled, Faithful, AfterAdd, AfterUpdate, AfterDelete,
         AfterToggle, AfterSwitch,
         TakenDown, Without, NewRow;
    match step {
      case Add(req, ipv4, ipv6) => AddKeepsPlain(u, s, req, ipv4, ipv6);
      case Update(req) => UpdateKeepsPlain(u, s, req);
      case Delete(id) =>
        OthersArePlain(s.rows, id);
        DeletedRows(u, s, id);
      case Toggle(id, enable) => ToggleKeepsPlain(u, s, id, enable);
      case Switch(on) => SwitchedRows(u, s, on);
      case Down => SwitchedRows(u, s, false);
    }
  }

  lemma FlagIsPlain(c: Client, enable: bool)
    requires PlainRow(c)
    ensures PlainRow(c.(enable := enable))
  {}

  lemma PortsArePlain(c: Client, ports: string)
    requires PlainRow(c)
    ensures PlainRow(c.(forwardedPorts := ports))
  {}

  lemma UpdateKeepsPlain(u: Setup, s: State, req: Client)
    requires PlainRows(s.rows) && PlainRow(req)
    ensures PlainRows(AfterUpdate(u, s, req).rows)
  {
    hide PlainRow, Find, Saved, FileFor, Diffed, HookReader.HookCommands, Canonical, PlainRows;
    var c := req.(forwardedPorts := Canonical(req.forwardedPorts));
    PortsArePlain(req, Canonical(req.forwardedPorts));
    SavedArePlain(s.rows, c);
    ReappliedKeepsRows(u, s.(rows := Saved(s.rows, c), nextId := if c.id >= s.nextId then c.id + 1 else s.nextId),
                       Find(s.rows, c.id), Some(c));
  }

  lemma {:induction false} RunKeepsPlain(u: Setup, states: seq<State>, steps: seq<Step>, n: nat)
    requires PlainSetup(u) && Faithful(u.notation) && IsRun(u, states, steps) && n <= |steps|
    requires forall i :: 0 <= i < |steps| ==> PlainStep(steps[i])
    ensures PlainRows(states[n].rows)
  {
    hide PlainSetup, PlainRow, Next, Enabled, Faithful;
    if n > 0 {
      RunKeepsPlain(u, states, steps, n - 1);
      NextKeepsPlain(u, states[n - 1], steps[n - 1]);
    }
  }

  /** The condition of TunnelClients.IncrementalIsFromScratch, told from the inputs: with default hooks and requests
      whose fields are plain, the file's hooks are run as they are meant at every moment. */
  lemma PlainRequestsRun(u: Setup, states: seq<State>, steps: seq<Step>)
    requires PlainSetup(u) && Faithful(u.notation) && IsRun(u, states, steps)
    requires forall i :: 0 <= i < |steps| ==> PlainStep(steps[i])
    ensures AlwaysRuns(u, states)
  {
    hide PlainSetup, PlainRows, Faithful, Next, Enabled, Runs;
    forall i | 0 <= i < |states| ensures Runs(u, states[i].rows) {
      RunKeepsPlain(u, states, steps, i);
      PlainRowsRun(u, states[i].rows);
    }
  }

  /** So after any run of such requests the live rules are those of a fresh bring-up for the current table. */
  lemma PlainRequestsFromScratch(u: Setup, states: seq<State>, steps: seq<Step>)
    requires PlainSetup(u) && Faithful(u.notation) && IsRun(u, states, steps)
    requires forall i :: 0 <= i < |steps| ==> PlainStep(steps[i])
    ensures var s := states[|steps|];
            multiset(s.k.rules)
            == multiset((if s.up then Firewall.ExecAll(UpCommands(u.server, s.rows, u.detected), states[0].k)
                         else states[0].k).rules)
  {
    hide *;
    PlainRequestsRun(u, states, steps);
    IncrementalIsFromScratch(u, states, steps);
  }
}
