/**
 The connection cache of modbusd.c: handles are found or created by address and
 connected when a command needs them. What libmodbus answers is a parameter.
 */
module Modbusd {
  import opened CText
  import opened HashStructure
  import opened UtHash
  import HashRuns

  /** The size of the two character arrays of a key. */
  const FIELD := 50

  /** A string that strcpy can store in a field with its terminator. */
  predicate FitsField(s: string) {
    CString(s) && |s| < FIELD
  }

  /** A field after memset and strcpy. */
  function Field(s: string): (f: string)
    requires |s| <= FIELD
    ensures |f| == FIELD
  {
    s + seq(FIELD - |s|, _ => '\0')
  }

  /** The bytes of a key. */
  function KeyOf(ip: string, port: string): (key: string)
    requires |ip| <= FIELD && |port| <= FIELD
    ensures |key| == 2 * FIELD
  {
    Field(ip) + Field(port)
  }

  /** Where the string in a field ends. */
  function Terminator(f: string, i: nat): (n: nat)
    decreases |f| - i
  {
    if i < |f| && f[i] != '\0' then Terminator(f, i + 1) else i
  }

  lemma {:induction false} TerminatorOf(s: string, i: nat)
    requires FitsField(s) && i <= |s|
    ensures Terminator(Field(s), i) == |s|
    decreases |s| - i
  {
    if i < |s| {
      TerminatorOf(s, i + 1);
    }
  }

  lemma {:induction false} FieldInjective(s: string, t: string)
    requires FitsField(s) && FitsField(t) && Field(s) == Field(t)
    ensures s == t
  {
    TerminatorOf(s, 0);
    TerminatorOf(t, 0);
    assert s == Field(s)[..|s|] && t == Field(t)[..|t|];
  }

  /** Padding with zeros makes the key of an address its own. */
  lemma KeyInjective(ip: string, port: string, ip': string, port': string)
    requires FitsField(ip) && FitsField(port) && FitsField(ip') && FitsField(port')
    requires KeyOf(ip, port) == KeyOf(ip', port')
    ensures ip == ip' && port == port'
  {
    var k := KeyOf(ip, port);
    assert k[..FIELD] == Field(ip) && k[FIELD..] == Field(port);
    assert k[..FIELD] == Field(ip') && k[FIELD..] == Field(port');
    FieldInjective(ip, ip');
    FieldInjective(port, port');
  }

  /** What happens to connections, in order. */
  datatype Event =
    | Connect(key: string, ok: bool)
    | Run(key: string)
    | Reset(key: string)

  const ECONNRESET := 104

  /** The last successful connect or reset of a key was a successful connect. */
  predicate Connected(log: seq<Event>, key: string) {
    log != [] &&
    match log[|log| - 1]
    case Connect(k, ok) => if k == key && ok then true else Connected(log[..|log| - 1], key)
    case Reset(k) => k != key && Connected(log[..|log| - 1], key)
    case Run(_) => Connected(log[..|log| - 1], key)
  }

  /** No function-code handler ever ran on a handle that was not connected. */
  predicate Safe(log: seq<Event>) {
    forall i | 0 <= i < |log| :: log[i].Run? ==> Connected(log[..i], log[i].key)
  }

  lemma {:induction false} Extend(log: seq<Event>, e: Event, key: string)
    ensures Connected(log + [e], key) ==
            match e
            case Connect(k, ok) => (k == key && ok) || Connected(log, key)
            case Reset(k) => k != key && Connected(log, key)
            case Run(_) => Connected(log, key)
    ensures Safe(log) && (e.Run? ==> Connected(log, e.key)) ==> Safe(log + [e])
  {
    var l := log + [e];
    assert l[..|l| - 1] == log;
    assert forall i | 0 <= i <= |log| :: l[..i] == log[..i];
  }

  /** What a function-code handler comes to: refused before libmodbus is called, or its result. */
  datatype Call = Refused | Succeeded | Failed(errno: int)

  /** What libmodbus answers during a command, for the calls that are made. */
  datatype Answers = Answers(context: bool, firstConnect: bool, connect: bool, call: Call)

  datatype Response = InitFailed | ConnectFailed | Handled(call: Call)

  /** The handles: no two have the same key, and their flags follow from the log. */
  ghost predicate Faithful(items: seq<Elem>, log: seq<Event>)
    reads items`key, items`connected
  {
    && (forall i, j | 0 <= i < j < |items| :: items[i].key != items[j].key)
    && (forall i | 0 <= i < |items| :: items[i].connected == Connected(log, items[i].key))
  }

  /** Keys without a handle have no events. */
  ghost predicate Quiet(items: seq<Elem>, log: seq<Event>)
    reads items`key
  {
    forall k | 0 <= k < |log| :: exists i :: 0 <= i < |items| && items[i].key == log[k].key
  }

  /** An event on one handle, whose flag has been set accordingly, keeps everything. */
  lemma {:induction false} EventKeeps(items: seq<Elem>, log: seq<Event>, handle: Elem, e: Event)
    requires (forall i, j | 0 <= i < j < |items| :: items[i].key != items[j].key)
    requires handle in items && e.key == handle.key && handle.connected == Connected(log + [e], handle.key)
    requires forall i | 0 <= i < |items| && items[i] != handle :: items[i].connected == Connected(log, items[i].key)
    requires Quiet(items, log) && Safe(log) && (e.Run? ==> Connected(log, e.key))
    ensures Faithful(items, log + [e]) && Quiet(items, log + [e]) && Safe(log + [e])
  {
    var l := log + [e];
    Extend(log, e, handle.key);
    var h :| 0 <= h < |items| && items[h] == handle;
    forall i | 0 <= i < |items|
      ensures items[i].connected == Connected(l, items[i].key)
    {
      Extend(log, e, items[i].key);
      if i != h {
        assert items[if i < h then i else h].key != items[if i < h then h else i].key;
      }
    }
    forall k | 0 <= k < |l|
      ensures exists i :: 0 <= i < |items| && items[i].key == l[k].key
    {
      if k == |log| {
        assert items[h].key == l[k].key;
      } else {
        assert l[k] == log[k];
      }
    }
  }

  lemma {:induction false} FlagOf(items: seq<Elem>, log: seq<Event>, handle: Elem)
    requires Faithful(items, log) && handle in items
    ensures handle.connected == Connected(log, handle.key)
  {
  }

  /** What running a function-code handler does to the connection: errno 104 resets it. */
  function RunEvents(key: string, call: Call): (es: seq<Event>) {
    [Run(key)] + if call == Failed(ECONNRESET) then [Reset(key)] else []
  }

  /** What a command does for a handle that is or is not connected. */
  function ConnectedEvents(key: string, on: bool, connect: bool, call: Call): (es: seq<Event>) {
    if on then RunEvents(key, call)
    else if connect then [Connect(key, true)] + RunEvents(key, call)
    else [Connect(key, false)]
  }

  /** What a command does, by whether the handle was known and connected. */
  function CommandEvents(key: string, known: bool, on: bool, a: Answers): (es: seq<Event>) {
    if known then ConnectedEvents(key, on, a.connect, a.call)
    else if !a.context then []
    else [Connect(key, a.firstConnect)] + ConnectedEvents(key, a.firstConnect, a.connect, a.call)
  }

  function CommandResponse(known: bool, on: bool, a: Answers): (r: Response) {
    if !known && !a.context then InitFailed
    else if (if known then on else a.firstConnect) || a.connect then Handled(a.call)
    else ConnectFailed
  }

  /**
   The answer to a command tells what happened: whether a handler ran and what it
   came to, whether the last connect failed, and whether there is no handle.
   */
  predicate Tells(r: Response, es: seq<Event>, key: string, has: bool, call: Call) {
    && (r.Handled? <==> Run(key) in es)
    && (r.Handled? ==> r.call == call && (Reset(key) in es <==> call == Failed(104)))
    && (!r.Handled? ==> Reset(key) !in es)
    && (r.ConnectFailed? <==> es != [] && es[|es| - 1] == Connect(key, false))
    && (r.InitFailed? <==> !has)
  }

  lemma {:induction false} ResponseTells(key: string, known: bool, on: bool, a: Answers)
    ensures Tells(CommandResponse(known, on, a), CommandEvents(key, known, on, a), key, known || a.context, a.call)
  {
    var es := CommandEvents(key, known, on, a);
    var run := RunEvents(key, a.call);
    assert run[0] == Run(key) && (a.call == Failed(104) ==> run[1] == Reset(key));
    assert known && on ==> es == run;
    assert known && !on && a.connect ==> es == [Connect(key, true)] + run;
    assert !known && a.context && a.firstConnect ==> es == [Connect(key, true)] + run;
    assert !known && a.context && !a.firstConnect && a.connect ==>
        es == [Connect(key, false)] + ([Connect(key, true)] + run);
  }

  ghost predicate Has(items: seq<Elem>, key: string)
    reads items`key
  {
    exists i :: 0 <= i < |items| && items[i].key == key
  }

  lemma {:induction false} QuietMeansOff(items: seq<Elem>, log: seq<Event>, key: string)
    requires Quiet(items, log) && forall i | 0 <= i < |items| :: items[i].key != key
    ensures !Connected(log, key)
  {
    forall k | 0 <= k < |log|
      ensures log[k].key != key
    {
      var i :| 0 <= i < |items| && items[i].key == log[k].key;
    }
    NoEvents(log, key);
  }

  lemma {:induction false} NoEvents(log: seq<Event>, key: string)
    requires forall k | 0 <= k < |log| :: log[k].key != key
    ensures !Connected(log, key)
  {
    if log != [] {
      NoEvents(log[..|log| - 1], key);
    }
  }

  /** A new handle, not yet connected, keeps everything. */
  lemma {:induction false} HandleKeeps(items: seq<Elem>, log: seq<Event>, handle: Elem)
    requires Faithful(items, log) && Quiet(items, log) && !handle.connected
    requires forall i | 0 <= i < |items| :: items[i].key != handle.key
    ensures Faithful(items + [handle], log) && Quiet(items + [handle], log)
  {
    var r := items + [handle];
    QuietMeansOff(items, log, handle.key);
    assert forall i | 0 <= i < |items| :: r[i] == items[i];
    forall k | 0 <= k < |log|
      ensures exists i :: 0 <= i < |r| && r[i].key == log[k].key
    {
      var i :| 0 <= i < |items| && items[i].key == log[k].key;
      assert r[i].key == log[k].key;
    }
  }

  class Daemon {
    var table: Hash
    ghost var log: seq<Event>
    ghost var repr: set<object>

    ghost predicate Valid()
      reads this, repr
    {
      && this !in repr && table in repr
      && (table.view.table != null ==> table.view.table in repr && table.view.table.buckets in repr)
      && (forall i | 0 <= i < |table.view.items| :: table.view.items[i] in repr)
      && (forall e | e in table.view.hv :: e in repr)
      && table.Valid()
      && Faithful(table.view.items, log) && Quiet(table.view.items, log) && Safe(log)
    }

    constructor (hash: string -> nat)
      ensures Valid() && fresh(repr) && log == [] && table.view.items == []
    {
      var h := new Hash(hash);
      table := h;
      log := [];
      repr := {h};
    }

    /** mbtcp_get_handle */
    method GetHandle(ip: string, port: string) returns (handle: Elem?)
      requires Valid() && FitsField(ip) && FitsField(port)
      ensures handle != null ==> handle in table.view.items && handle.key == KeyOf(ip, port)
      ensures handle == null ==> forall i | 0 <= i < |table.view.items| :: table.view.items[i].key != KeyOf(ip, port)
    {
      handle := table.Find(KeyOf(ip, port));
    }

    /** mbtcp_do_connect, with the answer of modbus_connect. */
    method DoConnect(handle: Elem, answer: bool) returns (ok: bool)
      requires Valid() && handle in table.view.items
      modifies this`log, handle`connected
      ensures Valid() && ok == answer
      ensures log == old(log) + [Connect(handle.key, answer)] && handle.connected == (answer || old(handle.connected))
    {
      hide Hash.Valid, Connected, Safe, Quiet;
      FlagOf(table.view.items, log, handle);
      if answer { handle.connected := true; }
      ghost var e := Connect(handle.key, answer);
      Extend(log, e, handle.key);
      EventKeeps(table.view.items, log, handle, e);
      log := log + [e];
      ok := answer;
    }

    /** The part of mbtcp_init_handle that puts the handle into the table. */
    method AddHandle(ip: string, port: string) returns (handle: Elem)
      requires Valid() && FitsField(ip) && FitsField(port)
      requires forall i | 0 <= i < |table.view.items| :: table.view.items[i].key != KeyOf(ip, port)
      modifies this`repr, repr
      ensures Valid() && fresh(repr - old(repr)) && table == old(table) && log == old(log)
      ensures fresh(handle) && table.view.items == old(table.view.items) + [handle]
      ensures handle.key == KeyOf(ip, port) && !handle.connected
      ensures forall i | 0 <= i < |old(table.view.items)| ::
                old(table.view.items)[i].key == old(table.view.items[i].key)
    {
      hide Hash.Valid, Faithful, Quiet, Safe, KeyOf, Full, Grows, Has;
      handle := new Elem();
      ghost var items := table.view.items;
      table.Add(handle, KeyOf(ip, port));
      HandleKeeps(items, log, handle);
      repr := repr + {handle} + HashRuns.Footprint(table);
    }

    /** mbtcp_init_handle, with the answers of modbus_new_tcp_pi and modbus_connect. */
    method InitHandle(ip: string, port: string, context: bool, connect: bool) returns (handle: Elem?)
      requires Valid() && FitsField(ip) && FitsField(port) && !Has(table.view.items, KeyOf(ip, port))
      modifies this`repr, this`log, repr
      ensures Valid() && fresh(repr - old(repr)) && table == old(table)
      ensures if context then handle != null && table.view.items == old(table.view.items) + [handle]
              else handle == null && table.view.items == old(table.view.items)
      ensures context ==> handle.key == KeyOf(ip, port) && handle.connected == connect
      ensures forall i | 0 <= i < |old(table.view.items)| ::
                old(table.view.items)[i].key == old(table.view.items[i].key)
      ensures log == old(log) + if context then [Connect(KeyOf(ip, port), connect)] else []
    {
      hide Intact, Faithful, Quiet, Safe, KeyOf;
      if !context { return null; }
      var added := AddHandle(ip, port);
      assert added in table.view.items;
      var ok := DoConnect(added, connect);
      handle := added;
    }

    /** lazy_mbtcp_connect */
    method LazyConnect(handle: Elem, connect: bool) returns (ok: bool)
      requires Valid() && handle in table.view.items
      modifies this`log, handle`connected
      ensures Valid() && handle.connected == ok == (old(handle.connected) || connect)
      ensures log == old(log) + if old(handle.connected) then [] else [Connect(handle.key, connect)]
    {
      hide Intact, Faithful, Quiet, Safe;
      if handle.connected { return true; }
      ok := DoConnect(handle, connect);
    }

    /** The call of a function-code handler, which ends in set_modbus_errno_resp if libmodbus reports an error. */
    method CallHandler(handle: Elem, call: Call)
      requires Valid() && handle in table.view.items && handle.connected
      modifies this`log, handle`connected
      ensures Valid() && log == old(log) + RunEvents(handle.key, call)
      ensures handle.connected == (call != Failed(ECONNRESET))
    {
      hide Hash.Valid, Connected, Safe, Quiet;
      FlagOf(table.view.items, log, handle);
      Extend(log, Run(handle.key), handle.key);
      EventKeeps(table.view.items, log, handle, Run(handle.key));
      log := log + [Run(handle.key)];
      if call == Failed(ECONNRESET) {
        handle.connected := false;
        Extend(log, Reset(handle.key), handle.key);
        EventKeeps(table.view.items, log, handle, Reset(handle.key));
        log := log + [Reset(handle.key)];
      }
    }

    /** lazy_init_mbtcp_handle */
    method LazyInit(ip: string, port: string, context: bool, connect: bool) returns (handle: Elem?)
      requires Valid() && FitsField(ip) && FitsField(port)
      modifies this`repr, this`log, repr
      ensures Valid() && fresh(repr - old(repr)) && table == old(table)
      ensures var known := old(Has(table.view.items, KeyOf(ip, port)));
              && (handle == null <==> !known && !context)
              && table.view.items == old(table.view.items) + (if known || !context then [] else [handle])
              && log == old(log) + (if known || !context then [] else [Connect(KeyOf(ip, port), connect)])
      ensures handle != null ==> handle in table.view.items && handle.key == KeyOf(ip, port)
      ensures var on := if old(Has(table.view.items, KeyOf(ip, port))) then Connected(old(log), KeyOf(ip, port))
                else connect;
              handle != null ==> handle.connected == on
      ensures forall key :: Has(table.view.items, key) <==>
                old(Has(table.view.items, key)) || (key == KeyOf(ip, port) && context)
    {
      hide Intact, Faithful, Quiet, Safe, KeyOf, Connected;
      ghost var items := table.view.items;
      handle := GetHandle(ip, port);
      if handle != null {
        FlagOf(table.view.items, log, handle);
      } else {
        handle := InitHandle(ip, port, context, connect);
        if handle != null {
          HasAppend(items, handle);
        }
      }
    }

    /** The part of mbtcp_cmd_hanlder that has a handle. */
    method CommandOn(handle: Elem, connect: bool, call: Call) returns (r: Response)
      requires Valid() && handle in table.view.items
      modifies this`log, handle`connected
      ensures Valid() && log == old(log) + ConnectedEvents(handle.key, old(handle.connected), connect, call)
      ensures r == if old(handle.connected) || connect then Handled(call) else ConnectFailed
    {
      hide Daemon.Valid;
      var ok := LazyConnect(handle, connect);
      if !ok { return ConnectFailed; }
      CallHandler(handle, call);
      r := Handled(call);
    }

    /** mbtcp_cmd_hanlder: finds or creates the handle, connects it if needed, and only then runs the handler. */
    method Command(ip: string, port: string, a: Answers) returns (r: Response)
      requires Valid() && FitsField(ip) && FitsField(port)
      modifies this`repr, this`log, repr
      ensures Valid() && fresh(repr - old(repr)) && table == old(table)
      ensures var key, known := KeyOf(ip, port), old(Has(table.view.items, KeyOf(ip, port)));
              && r == CommandResponse(known, Connected(old(log), key), a)
              && log == old(log) + CommandEvents(key, known, Connected(old(log), key), a)
              && |table.view.items| == |old(table.view.items)| + (if known || !a.context then 0 else 1)
      ensures forall key :: Has(table.view.items, key) <==>
                old(Has(table.view.items, key)) || (key == KeyOf(ip, port) && a.context)
      ensures old(log) <= log
      ensures Tells(r, log[|old(log)|..], KeyOf(ip, port), Has(table.view.items, KeyOf(ip, port)), a.call)
    {
      hide Daemon.Valid, KeyOf, Connected, Has, Tells, ConnectedEvents;
      ResponseTells(KeyOf(ip, port), Has(table.view.items, KeyOf(ip, port)), Connected(log, KeyOf(ip, port)), a);
      var handle := LazyInit(ip, port, a.context, a.firstConnect);
      if handle == null { return InitFailed; }
      HandleOwned(this, handle);
      r := CommandOn(handle, a.connect, a.call);
    }
  }

  lemma {:induction false} HandleOwned(d: Daemon, handle: Elem)
    requires d.Valid() && handle in d.table.view.items
    ensures handle in d.repr
  {
  }

  lemma {:induction false} HasAppend(items: seq<Elem>, e: Elem)
    ensures forall key :: Has(items + [e], key) <==> Has(items, key) || key == e.key
  {
    var r := items + [e];
    assert r[|items|] == e && forall i | 0 <= i < |items| :: r[i] == items[i];
    forall key | Has(items, key)
      ensures Has(r, key)
    {
      var i :| 0 <= i < |items| && items[i].key == key;
      assert r[i].key == key;
    }
  }

  // Runs

  datatype Request = Request(ip: string, port: string, answers: Answers)

  predicate WellFormed(requests: seq<Request>) {
    forall i | 0 <= i < |requests| :: FitsField(requests[i].ip) && FitsField(requests[i].port)
  }

  /** A handle exists once a context could be made for the address. */
  predicate Known(requests: seq<Request>, key: string)
    requires WellFormed(requests)
  {
    exists i :: 0 <= i < |requests| && requests[i].answers.context && KeyOf(requests[i].ip, requests[i].port) == key
  }

  /** The events of a whole run. */
  function History(requests: seq<Request>): (log: seq<Event>)
    requires WellFormed(requests)
  {
    if requests == [] then []
    else
      var n := |requests| - 1;
      var q, log := requests[n], History(requests[..n]);
      var key := KeyOf(q.ip, q.port);
      log + CommandEvents(key, Known(requests[..n], key), Connected(log, key), q.answers)
  }

  lemma {:induction false} HistoryStep(requests: seq<Request>, n: nat)
    requires WellFormed(requests) && n < |requests|
    ensures WellFormed(requests[..n]) && WellFormed(requests[..n + 1])
    ensures var q, log := requests[n], History(requests[..n]);
            var key := KeyOf(q.ip, q.port);
            && History(requests[..n + 1]) == log + CommandEvents(key, Known(requests[..n], key), Connected(log, key),
                q.answers)
            && forall k :: Known(requests[..n + 1], k) <==> Known(requests[..n], k) || (k == key && q.answers.context)
  {
    var r, s := requests[..n + 1], requests[..n];
    assert r[..n] == s && r[n] == requests[n];
    forall k
      ensures Known(r, k) <==>
                Known(s, k) || (k == KeyOf(requests[n].ip, requests[n].port) && requests[n].answers.context)
    {
      if Known(s, k) {
        var i :| 0 <= i < |s| && s[i].answers.context && KeyOf(s[i].ip, s[i].port) == k;
        assert r[i] == s[i];
      }
      if Known(r, k) {
        var i :| 0 <= i < |r| && r[i].answers.context && KeyOf(r[i].ip, r[i].port) == k;
        if i < n {
          assert s[i] == r[i];
        }
      }
    }
  }

  lemma {:induction false} NothingServed(items: seq<Elem>)
    requires items == []
    ensures History([]) == [] && forall key :: Has(items, key) <==> Known([], key)
  {
  }

  lemma {:induction false} AllServed(items: seq<Elem>, log: seq<Event>)
    requires Faithful(items, log)
    ensures forall i, j | 0 <= i < j < |items| :: items[i].key != items[j].key
    ensures forall i | 0 <= i < |items| :: items[i].connected == Connected(log, items[i].key)
  {
  }

  /** The answer r to command i tells what the log says happened between the positions a and b. */
  predicate Told(requests: seq<Request>, i: nat, r: Response, log: seq<Event>, a: nat, b: nat)
    requires WellFormed(requests) && i < |requests|
  {
    && a <= b <= |log|
    && var key := KeyOf(requests[i].ip, requests[i].port);
       Tells(r, log[a..b], key, Known(requests[..i + 1], key), requests[i].answers.call)
  }

  /** So do the answers to all commands so far; the events of command i stand between marks i and i + 1. */
  predicate AllTold(requests: seq<Request>, responses: seq<Response>, log: seq<Event>, marks: seq<nat>)
    requires WellFormed(requests)
  {
    && |responses| <= |requests| && |marks| == |responses| + 1
    && marks[0] == 0 && marks[|responses|] == |log|
    && forall i | 0 <= i < |responses| :: Told(requests, i, responses[i], log, marks[i], marks[i + 1])
  }

  lemma {:induction false} StillTold(requests: seq<Request>, i: nat, r: Response, log: seq<Event>, a: nat, b: nat,
                                     log': seq<Event>)
    requires WellFormed(requests) && i < |requests| && Told(requests, i, r, log, a, b) && log <= log'
    ensures Told(requests, i, r, log', a, b)
  {
    assert log'[a..b] == log[a..b];
  }

  lemma {:induction false} OneMoreTold(requests: seq<Request>, responses: seq<Response>, log: seq<Event>,
                                       marks: seq<nat>, r: Response, log': seq<Event>)
    requires WellFormed(requests) && AllTold(requests, responses, log, marks) && |responses| < |requests|
    requires log <= log' && Told(requests, |responses|, r, log', |log|, |log'|)
    ensures AllTold(requests, responses + [r], log', marks + [|log'|])
  {
    hide Told;
    var n, rs, ms := |responses|, responses + [r], marks + [|log'|];
    forall i | 0 <= i < |rs|
      ensures Told(requests, i, rs[i], log', ms[i], ms[i + 1])
    {
      if i < n {
        StillTold(requests, i, responses[i], log, marks[i], marks[i + 1], log');
      }
    }
  }

  /**
   A run of the daemon: for every sequence of commands and answers, what happened
   is the history of the run, each response tells what its command did, there is
   one handle for each address that a context could be made for, flags agree with
   the history, and no handler ran on a handle that was not connected.
   */
  method Serve(hash: string -> nat, requests: seq<Request>)
    returns (d: Daemon, responses: seq<Response>, ghost marks: seq<nat>)
    requires WellFormed(requests)
    ensures d.Valid() && d.log == History(requests) && Safe(History(requests))
    ensures |responses| == |requests| && AllTold(requests, responses, d.log, marks)
    ensures forall key :: Has(d.table.view.items, key) <==> Known(requests, key)
    ensures forall i, j | 0 <= i < j < |d.table.view.items| :: d.table.view.items[i].key != d.table.view.items[j].key
    ensures forall i | 0 <= i < |d.table.view.items| ::
              d.table.view.items[i].connected == Connected(History(requests), d.table.view.items[i].key)
  {
    hide Intact, Faithful, Quiet, Safe, History, Known, KeyOf, CommandEvents, Connected, Has, Tells;
    d := new Daemon(hash);
    responses, marks := [], [0];
    assert requests[..0] == [] && requests[..|requests|] == requests;
    NothingServed(d.table.view.items);
    for n := 0 to |requests|
      invariant d.Valid() && fresh(d) && fresh(d.repr)
      invariant WellFormed(requests[..n]) && d.log == History(requests[..n])
      invariant |responses| == n && AllTold(requests, responses, d.log, marks)
      invariant forall key :: Has(d.table.view.items, key) <==> Known(requests[..n], key)
    {
      HistoryStep(requests, n);
      ghost var log := d.log;
      var r := d.Command(requests[n].ip, requests[n].port, requests[n].answers);
      assert d.log[|log|..|d.log|] == d.log[|log|..];
      OneMoreTold(requests, responses, log, marks, r, d.log);
      responses, marks := responses + [r], marks + [|d.log|];
    }
    AllServed(d.table.view.items, d.log);
  }
}
