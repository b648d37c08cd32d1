/** At-most-once execution of API requests, with replay: the guard in front of every handler that mutates. */
module Idempotency {
  import opened Wrappers

  /** Texts and bodies alike are byte strings. */
  type Bytes = string

  const LIMIT := 0x10_0000

  // ---- The request and its digest ----

  datatype Request = Request(principal: Bytes, meth: Bytes, path: Bytes, body: Bytes, key: Bytes)

  /** What is hashed. The hash is taken to be free of collisions, so its input stands for it. */
  function Digest(meth: Bytes, path: Bytes, body: Bytes): Bytes {
    meth + ['\0'] + path + ['\0'] + body
  }

  predicate SameRequest(a: Request, b: Request) {
    a.meth == b.meth && a.path == b.path && a.body == b.body
  }

  /** Method, path and digest together identify the request. */
  lemma DigestIdentifies(a: Request, b: Request)
    ensures SameRequest(a, b) <==>
              a.meth == b.meth && a.path == b.path && Digest(a.meth, a.path, a.body) == Digest(b.meth, b.path, b.body)
  {
    var head := a.meth + ['\0'] + a.path + ['\0'];
    if a.meth == b.meth && a.path == b.path && head + a.body == head + b.body {
      assert a.body == (head + a.body)[|head|..] == (head + b.body)[|head|..] == b.body;
    }
  }

  /** The digest alone does not: a path may hold the separator. */
  lemma DigestAloneConfuses()
    ensures Digest("POST", "/a\0b", "c") == Digest("POST", "/a", "b\0c")
  {
    assert "/a\0b" + ['\0'] + "c" == "/a" + ['\0'] + "b\0c";
  }

  predicate KeyChar(c: char) {
    'A' <= c <= 'Z' || 'a' <= c <= 'z' || '0' <= c <= '9' || c == '.' || c == '_' || c == ':' || c == '-'
  }

  predicate ValidKey(key: Bytes) {
    8 <= |key| <= 128 && forall i :: 0 <= i < |key| ==> KeyChar(key[i])
  }

  predicate ReadOnly(meth: Bytes) {
    meth == "GET" || meth == "HEAD" || meth == "OPTIONS"
  }

  // ---- The response as the handler writes it ----

  datatype Event = Header(status: nat) | Chunk(bytes: Bytes)

  /** A status written late, and a chunk that does not fit, are dropped. */
  datatype Capture = Capture(status: nat, wroteHeader: bool, body: Bytes) {
    function After(e: Event): Capture {
      match e
      case Header(s) => if wroteHeader then this else Capture(s, true, body)
      case Chunk(p) =>
        Capture(status, true, if |body| + |p| > LIMIT then body else body + p)
    }
  }

  function Captured(events: seq<Event>): Capture {
    if events == [] then Capture(200, false, [])
    else Captured(events[..|events| - 1]).After(events[|events| - 1])
  }

  class CaptureWriter {
    var status: nat
    var wroteHeader: bool
    var body: Bytes

    function Value(): Capture reads this { Capture(status, wroteHeader, body) }

    constructor ()
      ensures Value() == Captured([])
    {
      status, wroteHeader, body := 200, false, [];
    }

    method WriteHeader(s: nat)
      modifies this
      ensures Value() == old(Value()).After(Header(s))
    {
      if wroteHeader { return; }
      status, wroteHeader := s, true;
    }

    /** 200 is implied by a first write, and is what the status already was. */
    method Write(p: Bytes) returns (ok: bool)
      requires !wroteHeader ==> status == 200
      modifies this
      ensures Value() == old(Value()).After(Chunk(p)) && ok == (|old(body)| + |p| <= LIMIT)
    {
      if !wroteHeader { WriteHeader(200); }
      if |body| + |p| > LIMIT { return false; }
      body := body + p;
      ok := true;
    }
  }

  /** The captured response: the first thing written fixes the status, and the body fits the store. */
  lemma {:induction false} CaptureIsExact(events: seq<Event>)
    ensures var c := Captured(events);
            && c.status == (if events != [] && events[0].Header? then events[0].status else 200)
            && (c.wroteHeader <==> events != [])
            && |c.body| <= 0x10_0000
  {
    if events != [] { CaptureIsExact(events[..|events| - 1]); }
  }

  /** Everything the handler wrote, whether it fits or not. */
  function Written(events: seq<Event>): Bytes {
    if events == [] then []
    else Written(events[..|events| - 1]) + (match events[|events| - 1] case Header(_) => [] case Chunk(p) => p)
  }

  /**
   * The captured body is the whole answer exactly if the answer fits. One that does not is cut without
   * a change of status, and so is kept and replayed cut.
   */
  lemma {:induction false} BodyIsWholeExactly(events: seq<Event>)
    ensures |Captured(events).body| <= |Written(events)|
    ensures Captured(events).body == Written(events) <==> |Written(events)| <= 0x10_0000
  {
    CaptureIsExact(events);
    if events != [] {
      BodyIsWholeExactly(events[..|events| - 1]);
      CaptureIsExact(events[..|events| - 1]);
    }
  }

  // ---- The record store ----

  datatype Slot = Slot(principal: Bytes, key: Bytes)

  datatype Answer = Answer(status: nat, contentType: Bytes, body: Bytes)

  datatype Record = Record(meth: Bytes, path: Bytes, digest: Bytes, answer: Option<Answer>)

  type Store = map<Slot, Record>

  /** What the handler does once it is entered: it answers, or the process dies in it. */
  datatype Handler = Dies | Answers(events: seq<Event>, contentType: Bytes)

  /** A request together with all that happens to it. */
  datatype Visit = Visit(req: Request, readable: bool, begin: Fate, handler: Handler, complete: Fate, abort: Fate)

  datatype Response =
    | Fresh(answer: Answer)
    | Replayed(answer: Answer)
    | TooLarge | InvalidKey | BeginFailed | Conflict | InProgress | PersistFailed | Lost

  datatype Served = Served(store: Store, entered: bool, response: Response)

  function SlotOf(req: Request): Slot { Slot(req.principal, req.key) }

  function Reservation(req: Request): Record {
    Record(req.meth, req.path, Digest(req.meth, req.path, req.body), None)
  }

  function AnswerOf(h: Handler): Answer
    requires h.Answers?
  {
    var c := Captured(h.events);
    Answer(c.status, h.contentType, c.body)
  }

  // ---- What one visit does ----

  /** The handler is entered with the reservation made; its answer is kept, or the reservation dropped. */
  function Execute(store: Store, v: Visit): Served {
    var slot := SlotOf(v.req);
    var reserved := store[slot := Reservation(v.req)];
    if v.handler.Dies? then Served(reserved, true, Lost) else
    var answer := AnswerOf(v.handler);
    var dropped := if v.abort.NotMade? then reserved else store - {slot};
    if answer.status >= 500 then Served(dropped, true, Fresh(answer)) else
    var completed := store[slot := Reservation(v.req).(answer := Some(answer))];
    match v.complete
    case Acknowledged => Served(completed, true, Fresh(answer))
    case Unacknowledged => Served(completed, true, PersistFailed)
    case NotMade => Served(dropped, true, PersistFailed)
  }

  /** A record is there already. */
  function Revisit(store: Store, req: Request, record: Record): Served {
    if record.(answer := None) != Reservation(req) then Served(store, false, Conflict)
    else if record.answer.Some? then Served(store, false, Replayed(record.answer.value))
    else Served(store, false, InProgress)
  }

  function Keyed(store: Store, v: Visit): Served {
    var slot := SlotOf(v.req);
    if v.req.principal == [] || v.req.meth == [] || v.req.path == [] then Served(store, false, BeginFailed)
    else if slot in store then
      if v.begin.Acknowledged? then Revisit(store, v.req, store[slot]) else Served(store, false, BeginFailed)
    else match v.begin
      case Acknowledged => Execute(store, v)
      case Unacknowledged => Served(store[slot := Reservation(v.req)], false, BeginFailed)
      case NotMade => Served(store, false, BeginFailed)
  }

  function Unguarded(store: Store, v: Visit): Served {
    Served(store, true, if v.handler.Dies? then Lost else Fresh(AnswerOf(v.handler)))
  }

  function Serve(store: Store, v: Visit): Served {
    if ReadOnly(v.req.meth) then Unguarded(store, v)
    else if !v.readable || |v.req.body| > LIMIT then Served(store, false, TooLarge)
    else if v.req.key == [] then Unguarded(store, v)
    else if !ValidKey(v.req.key) then Served(store, false, InvalidKey)
    else Keyed(store, v)
  }

  /**
   * The visit gets as far as the store: a method that may change something, a body that can be read and
   * is no longer than 1 MiB, a key of 8 to 128 of the permitted characters, and somebody and something named.
   */
  predicate Guarded(v: Visit) {
    && v.req.meth != "GET" && v.req.meth != "HEAD" && v.req.meth != "OPTIONS" && v.req.meth != ""
    && v.readable && |v.req.body| <= 0x10_0000
    && PermittedKey(v.req.key) && v.req.principal != "" && v.req.path != ""
  }

  predicate PermittedKey(key: Bytes) {
    8 <= |key| <= 128 && forall i :: 0 <= i < |key| ==> Permitted(key[i])
  }

  /** By its code: a digit, a letter, or one of dash, dot, colon and underscore. */
  predicate Permitted(c: char) {
    var code := c as int;
    48 <= code <= 57 || 65 <= code <= 90 || 97 <= code <= 122 || code in {45, 46, 58, 95}
  }

  // ---- The guard in its own form ----

  class Guard {
    var store: Store

    constructor ()
      ensures store == map[]
    {
      store := map[];
    }

    /** BeginAPIRequest: reads the record of the slot, or makes it. */
    method Begin(req: Request, fate: Fate) returns (ok: bool, created: bool, record: Record)
      modifies this
      ensures req.principal == [] || req.key == [] || req.meth == [] || req.path == [] ==> !ok && store == old(store)
      ensures !(req.principal == [] || req.key == [] || req.meth == [] || req.path == []) ==>
                && ok == fate.Acknowledged?
                && created == (SlotOf(req) !in old(store) && !fate.NotMade?)
                && store == (if created then old(store)[SlotOf(req) := Reservation(req)] else old(store))
                && (ok && !created ==> SlotOf(req) in old(store) && record == old(store)[SlotOf(req)])
    {
      record := Reservation(req);
      if req.principal == [] || req.key == [] || req.meth == [] || req.path == [] { return false, false, record; }
      ok, created := fate.Acknowledged?, false;
      if SlotOf(req) in store {
        record := store[SlotOf(req)];
      } else if !fate.NotMade? {
        store := store[SlotOf(req) := record];
        created := true;
      }
    }

    /** CompleteAPIRequest: only a reservation of this digest that is still open is completed. */
    method Complete(req: Request, answer: Answer, fate: Fate) returns (ok: bool)
      modifies this
      ensures var open := SlotOf(req) in old(store) && old(store)[SlotOf(req)].answer.None?
                          && old(store)[SlotOf(req)].digest == Reservation(req).digest && |answer.body| <= LIMIT;
              && store == (if open && !fate.NotMade?
                           then old(store)[SlotOf(req) := old(store)[SlotOf(req)].(answer := Some(answer))]
                               else old(store))
              && ok == (open && fate.Acknowledged?)
    {
      if |answer.body| > LIMIT { return false; }
      var slot := SlotOf(req);
      if slot in store && store[slot].answer.None? && store[slot].digest == Reservation(req).digest && !fate.NotMade? {
        store := store[slot := store[slot].(answer := Some(answer))];
        ok := fate.Acknowledged?;
      } else {
        ok := false;
      }
    }

    /** AbortAPIRequest: only a reservation of this digest that is still open is dropped. */
    method Abort(req: Request, fate: Fate)
      modifies this
      ensures store == if SlotOf(req) in old(store) && old(store)[SlotOf(req)].answer.None?
                          && old(store)[SlotOf(req)].digest == Reservation(req).digest && !fate.NotMade?
                       then old(store) - {SlotOf(req)} else old(store)
    {
      var slot := SlotOf(req);
      if slot in store && store[slot].answer.None? && store[slot].digest == Reservation(req).digest && !fate.NotMade? {
        store := store - {slot};
      }
    }

    method Handle(v: Visit) returns (entered: bool, response: Response)
      modifies this
      ensures Served(store, entered, response) == Serve(old(store), v)
    {
      if ReadOnly(v.req.meth) {
        return true, if v.handler.Dies? then Lost else Fresh(AnswerOf(v.handler));
      }
      if !v.readable || |v.req.body| > LIMIT { return false, TooLarge; }
      if v.req.key != [] && !ValidKey(v.req.key) { return false, InvalidKey; }
      if v.req.key == [] {
        return true, if v.handler.Dies? then Lost else Fresh(AnswerOf(v.handler));
      }
      var ok, created, record := Begin(v.req, v.begin);
      if !ok { return false, BeginFailed; }
      if !created {
        if record.meth != v.req.meth || record.path != v.req.path || record.digest != Reservation(v.req).digest {
          return false, Conflict;
        }
        if record.answer.Some? { return false, Replayed(record.answer.value); }
        return false, InProgress;
      }
      entered := true;
      if v.handler.Dies? { return true, Lost; }
      var answer := AnswerOf(v.handler);
      CaptureIsExact(v.handler.events);
      assert old(store)[SlotOf(v.req) := Reservation(v.req)] - {SlotOf(v.req)} == old(store) - {SlotOf(v.req)};
      if answer.status >= 500 {
        Abort(v.req, v.abort);
        return true, Fresh(answer);
      }
      var persisted := Complete(v.req, answer, v.complete);
      if !persisted {
        Abort(v.req, v.abort);
        return true, PersistFailed;
      }
      response := Fresh(answer);
    }
  }

  // ---- Runs ----

  /** The store after a sequence of visits; requests with a key are served one at a time. */
  function After(visits: seq<Visit>): Store {
    if visits == [] then map[] else Serve(After(visits[..|visits| - 1]), visits[|visits| - 1]).store
  }

  function Outcome(visits: seq<Visit>, i: nat): Served
    requires i < |visits|
  {
    Serve(After(visits[..i]), visits[i])
  }

  lemma AfterStep(visits: seq<Visit>, i: nat)
    requires i < |visits|
    ensures After(visits[..i + 1]) == Outcome(visits, i).store
  {
    assert visits[..i + 1][..i] == visits[..i];
  }

  /** A record that a visit finds, it leaves as it is. */
  lemma RecordsStay(store: Store, v: Visit, slot: Slot)
    requires slot in store
    ensures slot in Serve(store, v).store && Serve(store, v).store[slot] == store[slot]
  {
  }

  lemma {:induction false} RecordsStayForGood(visits: seq<Visit>, i: nat, j: nat, slot: Slot)
    requires i <= j <= |visits| && slot in After(visits[..i])
    ensures slot in After(visits[..j]) && After(visits[..j])[slot] == After(visits[..i])[slot]
    decreases j - i
  {
    if i < j {
      RecordsStayForGood(visits, i, j - 1, slot);
      AfterStep(visits, j - 1);
      RecordsStay(After(visits[..j - 1]), visits[j - 1], slot);
    }
  }

  /** A character is permitted in a key exactly if it is one of those listed. */
  lemma KeyCharsExactly(c: char)
    ensures KeyChar(c) <==> Permitted(c)
  {
  }

  lemma GuardedExactly(v: Visit)
    ensures Guarded(v) <==>
              && !ReadOnly(v.req.meth) && v.readable && |v.req.body| <= LIMIT && ValidKey(v.req.key)
              && v.req.principal != [] && v.req.meth != [] && v.req.path != []
  {
    hide KeyChar, Permitted;
    forall i | 0 <= i < |v.req.key| ensures KeyChar(v.req.key[i]) <==> Permitted(v.req.key[i]) {
      KeyCharsExactly(v.req.key[i]);
    }
  }

  /**
   * What every other request gets, the store unchanged: a read, and a request without a key, enters the
   * handler and gets its answer; a body that is too long, a bad key and an unnamed party are refused.
   */
  lemma UnguardedExactly(store: Store, v: Visit)
    requires !Guarded(v)
    ensures var r := Serve(store, v);
            var harmless := v.req.meth == "GET" || v.req.meth == "HEAD" || v.req.meth == "OPTIONS";
            var fits := v.readable && |v.req.body| <= 0x10_0000;
            && r.store == store
            && (r.entered <==> harmless || (fits && v.req.key == ""))
            && r.response ==
               (if r.entered then (if v.handler.Dies? then Lost else Fresh(AnswerOf(v.handler)))
                else if !fits then TooLarge
                else if PermittedKey(v.req.key) then BeginFailed
                else InvalidKey)
  {
    hide KeyChar, Permitted, AnswerOf;
    forall i | 0 <= i < |v.req.key| ensures KeyChar(v.req.key[i]) <==> Permitted(v.req.key[i]) {
      KeyCharsExactly(v.req.key[i]);
    }
  }

  /** The answer: the handler's content type, the first status it wrote, and the whole body if it fits. */
  lemma AnswerExactly(h: Handler)
    requires h.Answers?
    ensures var a := AnswerOf(h);
            && a.contentType == h.contentType
            && a.status == (if h.events != [] && h.events[0].Header? then h.events[0].status else 200)
            && (a.body == Written(h.events) <==> |Written(h.events)| <= 0x10_0000)
  {
    CaptureIsExact(h.events);
    BodyIsWholeExactly(h.events);
  }

  /** What the caller of an entered visit is told: its answer, unless it could not be kept as one. */
  lemma EnteredIsTold(store: Store, v: Visit)
    requires Guarded(v) && Serve(store, v).entered
    ensures Serve(store, v).response ==
              if v.handler.Dies? then Lost
              else if AnswerOf(v.handler).status >= 500 || v.complete.Acknowledged? then Fresh(AnswerOf(v.handler))
              else PersistFailed
  {
    hide AnswerOf;
    GuardedExactly(v);
  }

  /** What the caller of a visit is told that does not enter: by the record that is there, if it can be read. */
  lemma NotEnteredIsTold(store: Store, v: Visit)
    requires Guarded(v) && !Serve(store, v).entered
    ensures var slot := SlotOf(v.req);
            Serve(store, v).response ==
              if !v.begin.Acknowledged? || slot !in store then BeginFailed
              else if store[slot].meth != v.req.meth || store[slot].path != v.req.path
                      || store[slot].digest != Digest(v.req.meth, v.req.path, v.req.body) then Conflict
              else if store[slot].answer.Some? then Replayed(store[slot].answer.value)
              else InProgress
  {
    hide AnswerOf, Digest;
    GuardedExactly(v);
  }

  /** The visit entered the handler, and its slot was free again afterwards. */
  predicate Undone(v: Visit) {
    v.handler.Answers? && (AnswerOf(v.handler).status >= 500 || v.complete.NotMade?) && !v.abort.NotMade?
  }

  /** Exactly which visits enter the handler, and which of these leave no trace. */
  lemma EnteredExactly(store: Store, v: Visit)
    requires Guarded(v)
    ensures var r := Serve(store, v);
            && (r.entered <==> SlotOf(v.req) !in store && v.begin.Acknowledged?)
            && (r.entered ==> (SlotOf(v.req) !in r.store <==> Undone(v)))
  {
    GuardedExactly(v);
  }

  /**
   * The handler is entered twice for one principal and key only if the first attempt answered with a
   * server error, or its completion was not persisted, and its reservation was dropped.
   */
  lemma EnteredAgainOnlyAfterFailure(visits: seq<Visit>, i: nat, j: nat)
    requires i < j < |visits| && Guarded(visits[i]) && Guarded(visits[j])
        && SlotOf(visits[i].req) == SlotOf(visits[j].req)
    requires Outcome(visits, i).entered && Outcome(visits, j).entered
    ensures Undone(visits[i])
  {
    hide Serve, After;
    EnteredExactly(After(visits[..i]), visits[i]);
    EnteredExactly(After(visits[..j]), visits[j]);
    AfterStep(visits, i);
    if SlotOf(visits[i].req) in After(visits[..i + 1]) {
      RecordsStayForGood(visits, i + 1, j, SlotOf(visits[i].req));
    }
  }

  /** The visit's answer was persisted, whether or not the guard learned it. */
  predicate Settled(v: Visit) {
    v.handler.Answers? && AnswerOf(v.handler).status < 500 && !v.complete.NotMade?
  }

  /**
   * Once an answer is persisted, no later visit with that principal and key enters the handler: the
   * same request gets the same status, content type and body, another one a conflict.
   */
  lemma SettledForGood(visits: seq<Visit>, i: nat, j: nat)
    requires i < j < |visits| && Guarded(visits[i]) && Guarded(visits[j])
        && SlotOf(visits[i].req) == SlotOf(visits[j].req)
    requires Outcome(visits, i).entered && Settled(visits[i])
    ensures var r := Outcome(visits, j);
            && !r.entered
            && r.response == if !visits[j].begin.Acknowledged? then BeginFailed
                             else if SameRequest(visits[i].req, visits[j].req) then
                               Replayed(AnswerOf(visits[i].handler))
                             else Conflict
  {
    hide After, Guarded;
    GuardedExactly(visits[i]);
    GuardedExactly(visits[j]);
    var a, b := visits[i].req, visits[j].req;
    EnteredExactly(After(visits[..i]), visits[i]);
    AfterStep(visits, i);
    assert After(visits[..i + 1])[SlotOf(a)] == Reservation(a).(answer := Some(AnswerOf(visits[i].handler)));
    RecordsStayForGood(visits, i + 1, j, SlotOf(a));
    DigestIdentifies(a, b);
  }

  /**
   * The visit makes a reservation and leaves it open: its begin reported a failure though the row was
   * written, or the process died in the handler, or the reservation could not be dropped.
   */
  predicate Abandoned(v: Visit) {
    v.begin.Unacknowledged? || (v.begin.Acknowledged? && !Settled(v) && !Undone(v))
  }

  /** What a visit makes of a free slot: nothing, a kept answer, or a reservation that stays open. */
  lemma FreeSlotExactly(store: Store, v: Visit)
    requires Guarded(v) && SlotOf(v.req) !in store
    ensures var after, slot := Serve(store, v).store, SlotOf(v.req);
            && (slot !in after <==> v.begin.NotMade? || (v.begin.Acknowledged? && Undone(v)))
            && (slot in after && after[slot].answer.Some? <==> v.begin.Acknowledged? && Settled(v))
            && (slot in after && after[slot].answer.None? <==> Abandoned(v))
            && (slot in after ==> after[slot].(answer := None) == Reservation(v.req))
  {
    GuardedExactly(v);
  }

  /**
   * A reservation that is left open blocks its key for good, whether or not the handler was entered:
   * the same request is told that it is in progress, another one gets a conflict, and none enters.
   */
  lemma BlockedForGood(visits: seq<Visit>, i: nat, j: nat)
    requires i < j < |visits| && Guarded(visits[i]) && Guarded(visits[j])
        && SlotOf(visits[i].req) == SlotOf(visits[j].req)
    requires SlotOf(visits[i].req) !in After(visits[..i]) && Abandoned(visits[i])
    ensures var r := Outcome(visits, j);
            && !r.entered
            && r.response == if !visits[j].begin.Acknowledged? then BeginFailed
                             else if SameRequest(visits[i].req, visits[j].req) then InProgress
                             else Conflict
  {
    hide After, Guarded;
    GuardedExactly(visits[i]);
    GuardedExactly(visits[j]);
    var a, b := visits[i].req, visits[j].req;
    FreeSlotExactly(After(visits[..i]), visits[i]);
    AfterStep(visits, i);
    assert After(visits[..i + 1])[SlotOf(a)] == Reservation(a);
    RecordsStayForGood(visits, i + 1, j, SlotOf(a));
    DigestIdentifies(a, b);
  }

  /** One visit's slot is no other visit's business. */
  lemma SlotsAreSeparate(store: Store, v: Visit, slot: Slot)
    requires slot != SlotOf(v.req) || !Guarded(v)
    ensures slot in Serve(store, v).store <==> slot in store
    ensures slot in store ==> Serve(store, v).store[slot] == store[slot]
  {
    GuardedExactly(v);
  }
}
