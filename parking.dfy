/** The parking-state document: the expiry sweep that runs on every load of
    the state, and the occupy / free / subscribe / unsubscribe rules of the
    parking handlers, as updates of the `spots` and `subscriptions` maps.

    `spots` maps a spot id to the dict describing its occupant;
    `subscriptions` maps a spot id to the list of Telegram chat ids waiting
    for that spot. Timestamps are read through `parse`, an abstract partial
    function from text to instants standing for `datetime.fromisoformat`;
    the clock is the parameter `now`, a naive local time. */
module Parking {
  import opened JsonValues

  /** What `datetime.fromisoformat` makes of a text: a naive time, or a
      time with a UTC offset ("2030-01-01T10:00+03:00"). Python compares
      a naive time only with a naive one. */
  datatype Stamp = Naive(t: int) | Aware(t: int)

  type Spots = map<string, Json>
  type Subscriptions = map<string, Json>

  /** A notification the core asks the Telegram layer to send. The spot id
      is recorded beside the call's own arguments. */
  datatype Notice =
    | ReservationExpired(spot: string, chatId: string, title: string)
    | SpotFreed(spot: string, subscribers: Json, title: string)

  /** No notice is issued twice. */
  predicate NoRepeats(trace: seq<Notice>) {
    forall i, j :: 0 <= i < j < |trace| ==> trace[i] != trace[j]
  }

  // ---------------------------------------------------------------- shapes

  /** A spot entry the sweep can read without raising: a dict whose `until`
      and `telegram_chat_id` are strings or falsy. */
  predicate SweepableEntry(info: Json) {
    info.JObj? && TextField(info, "until").Some? && TextField(info, "telegram_chat_id").Some?
  }

  predicate SweepableSpots(spots: Spots) {
    forall sid :: sid in spots ==> SweepableEntry(spots[sid])
  }

  /** The entries of the parking configuration's `spots` list are dicts. */
  predicate ConfigEntries(cfg: seq<Json>) {
    forall i :: 0 <= i < |cfg| ==> cfg[i].JObj?
  }

  /** Every spot entry is a dict. */
  predicate EntriesAreDicts(spots: Spots) {
    forall sid :: sid in spots ==> spots[sid].JObj?
  }

  // ---------------------------------------------------------------- expiry

  function Until(info: Json): string
    requires SweepableEntry(info)
  {
    TextField(info, "until").value
  }

  function ChatId(info: Json): string
    requires SweepableEntry(info)
  {
    TextField(info, "telegram_chat_id").value
  }

  /** A reservation is over when its `until` is non-empty, parses to a
      naive time, and lies strictly before `now`. */
  predicate IsExpired(info: Json, now: int, parse: string -> Option<Stamp>)
    requires SweepableEntry(info)
  {
    var u := Until(info);
    u != "" && parse(u).Some? && parse(u).value.Naive? && parse(u).value.t < now
  }

  /** `dt < now` can be evaluated for this entry: its `until` is empty,
      does not parse, or parses to a naive time. A time with an offset
      makes the comparison with the naive clock raise TypeError. */
  predicate ComparableEntry(info: Json, parse: string -> Option<Stamp>)
    requires SweepableEntry(info)
  {
    var u := Until(info);
    u == "" || parse(u).None? || parse(u).value.Naive?
  }

  predicate NaiveOnly(spots: Spots, parse: string -> Option<Stamp>)
    requires SweepableSpots(spots)
  {
    forall sid :: sid in spots ==> ComparableEntry(spots[sid], parse)
  }

  function ExpiredIds(spots: Spots, now: int, parse: string -> Option<Stamp>): set<string>
    requires SweepableSpots(spots)
  {
    set sid | sid in spots && IsExpired(spots[sid], now, parse)
  }

  /** `subscriptions.get(sid)`. */
  function SubscribersOf(subs: Subscriptions, sid: string): Json {
    if sid in subs then subs[sid] else JNull
  }

  /** The spots the sweep keeps: every spot that has not expired, untouched. */
  function Remaining(spots: Spots, now: int, parse: string -> Option<Stamp>): Spots
    requires SweepableSpots(spots)
  {
    map sid | sid in spots && !IsExpired(spots[sid], now, parse) :: spots[sid]
  }

  /** The subscription entries the sweep keeps: all but those of an expired
      spot whose subscriber list is truthy (those subscribers were told). */
  function RemainingSubscriptions(spots: Spots, subs: Subscriptions, now: int, parse: string -> Option<Stamp>): Subscriptions
    requires SweepableSpots(spots)
  {
    map k | k in subs && !(k in spots && IsExpired(spots[k], now, parse) && Truthy(subs[k])) :: subs[k]
  }

  // ---------------------------------------------------------------- labels

  /** The label one configuration entry contributes:
      `s.get("label") or f"место {s.get('id')}"`. */
  function EntryLabel(s: Json): string
    requires s.JObj?
  {
    var l := Get(s, "label");
    if Truthy(l) then PyStr(l) else "место " + PyStr(Get(s, "id"))
  }

  /** The label the sweep shows for a spot: it builds a dict from
      `str(id)` to label over the configuration, so the LAST entry with a
      matching id wins; unknown spots are called "место <id>". */
  function SweepLabel(cfg: seq<Json>, sid: string): (r: string)
    requires ConfigEntries(cfg)
    ensures r == "место " + sid
         || exists i :: 0 <= i < |cfg| && PyStr(Get(cfg[i], "id")) == sid && r == EntryLabel(cfg[i])
  {
    if cfg == [] then "место " + sid
    else if PyStr(Get(cfg[|cfg| - 1], "id")) == sid then EntryLabel(cfg[|cfg| - 1])
    else SweepLabel(cfg[..|cfg| - 1], sid)
  }

  /** The sweep labels a spot by the LAST configuration entry whose id is
      the spot id. */
  lemma {:induction false} SweepLabelLastMatch(cfg: seq<Json>, sid: string, i: int)
    requires ConfigEntries(cfg) && 0 <= i < |cfg| && PyStr(Get(cfg[i], "id")) == sid
    requires forall j :: i < j < |cfg| ==> PyStr(Get(cfg[j], "id")) != sid
    ensures SweepLabel(cfg, sid) == EntryLabel(cfg[i])
  {
    if i < |cfg| - 1 {
      var init := cfg[..|cfg| - 1];
      assert init[i] == cfg[i];
      forall j | i < j < |init| ensures PyStr(Get(init[j], "id")) != sid {
        assert init[j] == cfg[j];
      }
      SweepLabelLastMatch(init, sid, i);
    }
  }

  /** A spot no configuration entry names is called "место <id>". */
  lemma {:induction false} SweepLabelUnknown(cfg: seq<Json>, sid: string)
    requires ConfigEntries(cfg)
    requires forall j :: 0 <= j < |cfg| ==> PyStr(Get(cfg[j], "id")) != sid
    ensures SweepLabel(cfg, sid) == "место " + sid
  {
    if cfg != [] {
      var init := cfg[..|cfg| - 1];
      forall j | 0 <= j < |init| ensures PyStr(Get(init[j], "id")) != sid {
        assert init[j] == cfg[j];
      }
      SweepLabelUnknown(init, sid);
    }
  }

  /** The notices one expired spot owes, in the order the sweep issues
      them: its owner (when it has a chat id), then its subscribers (when
      their list is truthy). A spot that has not expired owes none. */
  function NoticesFor(spots: Spots, subs: Subscriptions, cfg: seq<Json>, now: int,
                      parse: string -> Option<Stamp>, sid: string): seq<Notice>
    requires SweepableSpots(spots) && ConfigEntries(cfg) && sid in spots
  {
    var info := spots[sid];
    if !IsExpired(info, now, parse) then []
    else
      (if ChatId(info) != "" then [ReservationExpired(sid, ChatId(info), SweepLabel(cfg, sid))] else [])
      + (if Truthy(SubscribersOf(subs, sid)) then [SpotFreed(sid, SubscribersOf(subs, sid), SweepLabel(cfg, sid))] else [])
  }

  /** The notices a sweep owes for the spots in `among`. */
  function DueNotices(spots: Spots, subs: Subscriptions, cfg: seq<Json>, now: int,
                      parse: string -> Option<Stamp>, among: set<string>): set<Notice>
    requires SweepableSpots(spots) && ConfigEntries(cfg)
  {
    set sid, n | sid in among && sid in spots && n in NoticesFor(spots, subs, cfg, now, parse, sid) :: n
  }

  /** The spots still held once the spots in `visited` have been swept. */
  function KeptSpots(spots: Spots, now: int, parse: string -> Option<Stamp>, visited: set<string>): Spots
    requires SweepableSpots(spots)
  {
    map sid | sid in spots && !(sid in visited && IsExpired(spots[sid], now, parse)) :: spots[sid]
  }

  /** The subscription entries still present once the spots in `visited`
      have been swept. */
  function KeptSubscriptions(spots: Spots, subs: Subscriptions, now: int, parse: string -> Option<Stamp>,
                             visited: set<string>): Subscriptions
    requires SweepableSpots(spots)
  {
    map k | k in subs && !(k in visited && k in spots && IsExpired(spots[k], now, parse) && Truthy(subs[k])) :: subs[k]
  }

  lemma DueNoticesStep(spots: Spots, subs: Subscriptions, cfg: seq<Json>, now: int,
                       parse: string -> Option<Stamp>, visited: set<string>, sid: string)
    requires SweepableSpots(spots) && ConfigEntries(cfg) && sid in spots
    ensures DueNotices(spots, subs, cfg, now, parse, visited + {sid})
         == DueNotices(spots, subs, cfg, now, parse, visited) + (set n | n in NoticesFor(spots, subs, cfg, now, parse, sid))
  {
  }

  lemma KeptSpotsStep(spots: Spots, now: int, parse: string -> Option<Stamp>, visited: set<string>, sid: string)
    requires SweepableSpots(spots) && sid in spots && sid !in visited
    ensures KeptSpots(spots, now, parse, visited + {sid})
         == if IsExpired(spots[sid], now, parse) then KeptSpots(spots, now, parse, visited) - {sid}
            else KeptSpots(spots, now, parse, visited)
  {
    var a := KeptSpots(spots, now, parse, visited + {sid});
    var k := KeptSpots(spots, now, parse, visited);
    if IsExpired(spots[sid], now, parse) {
      assert a.Keys == k.Keys - {sid};
      forall x | x in a ensures a[x] == (k - {sid})[x] { }
    } else {
      assert a.Keys == k.Keys;
    }
  }

  lemma KeptSubscriptionsStep(spots: Spots, subs: Subscriptions, now: int, parse: string -> Option<Stamp>,
                              visited: set<string>, sid: string)
    requires SweepableSpots(spots) && sid in spots && sid !in visited
    ensures KeptSubscriptions(spots, subs, now, parse, visited + {sid})
         == if IsExpired(spots[sid], now, parse) && Truthy(SubscribersOf(subs, sid))
            then KeptSubscriptions(spots, subs, now, parse, visited) - {sid}
            else KeptSubscriptions(spots, subs, now, parse, visited)
  {
    var a := KeptSubscriptions(spots, subs, now, parse, visited + {sid});
    var b := if IsExpired(spots[sid], now, parse) && Truthy(SubscribersOf(subs, sid))
             then KeptSubscriptions(spots, subs, now, parse, visited) - {sid}
             else KeptSubscriptions(spots, subs, now, parse, visited);
    assert a.Keys == b.Keys;
  }

  lemma NoRepeatsAppend(a: seq<Notice>, b: seq<Notice>)
    requires NoRepeats(a) && NoRepeats(b)
    requires forall x :: x in a ==> x !in b
    ensures NoRepeats(a + b)
  {
    forall i, j | 0 <= i < j < |a + b| ensures (a + b)[i] != (a + b)[j] {
      if j < |a| {
        assert (a + b)[i] == a[i] && (a + b)[j] == a[j];
      } else if i >= |a| {
        assert (a + b)[i] == b[i - |a|] && (a + b)[j] == b[j - |a|];
      } else {
        assert (a + b)[i] == a[i] && (a + b)[j] == b[j - |a|];
        assert a[i] in a && a[i] !in b;
      }
    }
  }

  lemma NoticesForFacts(spots: Spots, subs: Subscriptions, cfg: seq<Json>, now: int,
                        parse: string -> Option<Stamp>, sid: string)
    requires SweepableSpots(spots) && ConfigEntries(cfg) && sid in spots
    ensures NoRepeats(NoticesFor(spots, subs, cfg, now, parse, sid))
    ensures forall n :: n in NoticesFor(spots, subs, cfg, now, parse, sid) ==> n.spot == sid
  {
    var info := spots[sid];
    var title := SweepLabel(cfg, sid);
    var owner: seq<Notice> := if ChatId(info) != "" then [ReservationExpired(sid, ChatId(info), title)] else [];
    var freed: seq<Notice> := if Truthy(SubscribersOf(subs, sid)) then [SpotFreed(sid, SubscribersOf(subs, sid), title)] else [];
    if IsExpired(info, now, parse) {
      assert NoticesFor(spots, subs, cfg, now, parse, sid) == owner + freed;
      NoRepeatsAppend(owner, freed);
    } else {
      assert NoticesFor(spots, subs, cfg, now, parse, sid) == [];
    }
  }

  lemma NoticeSetOfConcat(a: seq<Notice>, b: seq<Notice>)
    ensures (set n | n in a + b) == (set n | n in a) + (set n | n in b)
  {
  }

  /** Appending one spot's notices to the trace keeps it free of repeats
      and makes it hold the notices due for one more spot. */
  lemma TraceStep(spots: Spots, subs: Subscriptions, cfg: seq<Json>, now: int,
                  parse: string -> Option<Stamp>, visited: set<string>, sid: string, trace: seq<Notice>)
    requires SweepableSpots(spots) && ConfigEntries(cfg) && sid in spots && sid !in visited
    requires (set n | n in trace) == DueNotices(spots, subs, cfg, now, parse, visited)
    requires forall n :: n in trace ==> n.spot in visited
    requires NoRepeats(trace)
    ensures var t := trace + NoticesFor(spots, subs, cfg, now, parse, sid);
      && (set n | n in t) == DueNotices(spots, subs, cfg, now, parse, visited + {sid})
      && (forall n :: n in t ==> n.spot in visited + {sid})
      && NoRepeats(t)
  {
    var sent := NoticesFor(spots, subs, cfg, now, parse, sid);
    NoticesForFacts(spots, subs, cfg, now, parse, sid);
    NoRepeatsAppend(trace, sent);
    NoticeSetOfConcat(trace, sent);
    DueNoticesStep(spots, subs, cfg, now, parse, visited, sid);
  }

  /** One spot's turn in the sweep: an expired spot is freed, its owner
      is told when they left a chat id, and its subscribers are told and
      their list dropped when that list is truthy. `held` and `waiting` are
      the sweep's current spots and subscriptions. */
  method SweepSpot(spots: Spots, subs: Subscriptions, cfg: seq<Json>, now: int, parse: string -> Option<Stamp>,
                   sid: string, held: Spots, waiting: Subscriptions)
    returns (held': Spots, waiting': Subscriptions, sent: seq<Notice>, freed: bool)
    requires SweepableSpots(spots) && ConfigEntries(cfg) && sid in spots
    requires ComparableEntry(spots[sid], parse)
    requires SubscribersOf(waiting, sid) == SubscribersOf(subs, sid)
    ensures freed == IsExpired(spots[sid], now, parse)
    ensures sent == NoticesFor(spots, subs, cfg, now, parse, sid)
    ensures held' == if freed then held - {sid} else held
    ensures waiting' == if freed && Truthy(SubscribersOf(subs, sid)) then waiting - {sid} else waiting
  {
    held', waiting', sent, freed := held, waiting, [], false;
    var info := spots[sid];
    var until := Until(info);
    // an empty `until` is skipped before it is parsed
    var dt := if until == "" then None else parse(until);
    if dt.Some? && dt.value.t < now {
      var title := SweepLabel(cfg, sid);
      var chatId := ChatId(info);
      if chatId != "" {
        sent := [ReservationExpired(sid, chatId, title)];
      }
      var forSpot := SubscribersOf(waiting, sid);
      if Truthy(forSpot) {
        sent := sent + [SpotFreed(sid, forSpot, title)];
        waiting' := waiting - {sid};
      }
      held' := held - {sid};
      freed := true;
    }
  }

  /** The expiry sweep of `load_parking_state`. Visits every spot once
      (the visiting order is not modelled), frees the expired ones, tells
      their owners and subscribers, drops the notified subscription lists,
      and reports whether anything changed (and so must be written back). */
  method Sweep(spots: Spots, subs: Subscriptions, cfg: seq<Json>, now: int, parse: string -> Option<Stamp>)
    returns (spots': Spots, subs': Subscriptions, trace: seq<Notice>, changed: bool)
    requires SweepableSpots(spots) && ConfigEntries(cfg) && NaiveOnly(spots, parse)
    ensures spots' == Remaining(spots, now, parse)
    ensures subs' == RemainingSubscriptions(spots, subs, now, parse)
    ensures changed <==> ExpiredIds(spots, now, parse) != {}
    ensures (set n | n in trace) == DueNotices(spots, subs, cfg, now, parse, spots.Keys)
    ensures NoRepeats(trace)
  {
    spots', subs', trace, changed := spots, subs, [], false;
    var visited: set<string> := {};
    var todo := spots.Keys;
    while todo != {}
      invariant todo == spots.Keys - visited && visited <= spots.Keys
      invariant spots' == KeptSpots(spots, now, parse, visited)
      invariant subs' == KeptSubscriptions(spots, subs, now, parse, visited)
      invariant (set n | n in trace) == DueNotices(spots, subs, cfg, now, parse, visited)
      invariant forall n :: n in trace ==> n.spot in visited
      invariant NoRepeats(trace)
      invariant changed <==> exists sid :: sid in visited && sid in spots && IsExpired(spots[sid], now, parse)
      decreases todo
    {
      var sid :| sid in todo;
      assert SubscribersOf(subs', sid) == SubscribersOf(subs, sid);
      var sent, freed;
      spots', subs', sent, freed := SweepSpot(spots, subs, cfg, now, parse, sid, spots', subs');
      changed := changed || freed;
      TraceStep(spots, subs, cfg, now, parse, visited, sid, trace);
      trace := trace + sent;
      KeptSpotsStep(spots, now, parse, visited, sid);
      KeptSubscriptionsStep(spots, subs, now, parse, visited, sid);
      visited := visited + {sid};
      todo := todo - {sid};
    }
    assert spots' == Remaining(spots, now, parse);
    assert subs' == RemainingSubscriptions(spots, subs, now, parse);
  }

  /** After a sweep, nothing left has expired: a second sweep with the
      same clock frees nothing, notifies nobody and changes nothing. */
  lemma {:induction false} SweepIdempotent(spots: Spots, subs: Subscriptions, cfg: seq<Json>, now: int,
                                           parse: string -> Option<Stamp>)
    requires SweepableSpots(spots) && ConfigEntries(cfg)
    ensures SweepableSpots(Remaining(spots, now, parse))
    ensures ExpiredIds(Remaining(spots, now, parse), now, parse) == {}
    ensures Remaining(Remaining(spots, now, parse), now, parse) == Remaining(spots, now, parse)
    ensures RemainingSubscriptions(Remaining(spots, now, parse), RemainingSubscriptions(spots, subs, now, parse), now, parse)
         == RemainingSubscriptions(spots, subs, now, parse)
    ensures DueNotices(Remaining(spots, now, parse), RemainingSubscriptions(spots, subs, now, parse), cfg, now, parse,
                       Remaining(spots, now, parse).Keys) == {}
  {
    var kept := Remaining(spots, now, parse);
    var keptSubs := RemainingSubscriptions(spots, subs, now, parse);
    forall sid | sid in kept ensures NoticesFor(kept, keptSubs, cfg, now, parse, sid) == [] {
      assert !IsExpired(kept[sid], now, parse);
    }
  }

  /** The positions of the trace at which the owner of `sid` is told that
      the reservation expired. */
  function OwnerNoticesAt(trace: seq<Notice>, sid: string): set<int> {
    set i | 0 <= i < |trace| && trace[i].ReservationExpired? && trace[i].spot == sid
  }

  /** The positions of the trace at which the subscribers of `sid` are told
      that it is free, with the list `subscribers`. */
  function FreedNoticesAt(trace: seq<Notice>, sid: string, subscribers: Json): set<int> {
    set i | 0 <= i < |trace| && trace[i].SpotFreed? && trace[i].spot == sid && trace[i].subscribers == subscribers
  }

  /** The positions of the trace at which the subscribers of `sid` are told
      that it is free, with any list but `subscribers`. */
  function OtherFreedNoticesAt(trace: seq<Notice>, sid: string, subscribers: Json): set<int> {
    set i | 0 <= i < |trace| && trace[i].SpotFreed? && trace[i].spot == sid && trace[i].subscribers != subscribers
  }

  /** What a due notice looks like: it names an expired spot, and it is
      the owner's notice or the subscribers' notice that spot owes. */
  lemma DueNoticeShape(spots: Spots, subs: Subscriptions, cfg: seq<Json>, now: int,
                       parse: string -> Option<Stamp>, m: Notice)
    requires SweepableSpots(spots) && ConfigEntries(cfg)
    requires m in DueNotices(spots, subs, cfg, now, parse, spots.Keys)
    ensures m.spot in spots && IsExpired(spots[m.spot], now, parse)
    ensures m.ReservationExpired? ==>
      ChatId(spots[m.spot]) != "" && m == ReservationExpired(m.spot, ChatId(spots[m.spot]), SweepLabel(cfg, m.spot))
    ensures m.SpotFreed? ==>
      Truthy(SubscribersOf(subs, m.spot)) && m == SpotFreed(m.spot, SubscribersOf(subs, m.spot), SweepLabel(cfg, m.spot))
  {
    var s :| s in spots.Keys && s in spots && m in NoticesFor(spots, subs, cfg, now, parse, s);
    NoticesForFacts(spots, subs, cfg, now, parse, s);
  }

  /** A notice occurs at exactly one position of a trace without repeats. */
  lemma {:induction false} SinglePosition(trace: seq<Notice>, n: Notice, positions: set<int>)
    requires NoRepeats(trace) && n in trace
    requires forall i :: i in positions <==> 0 <= i < |trace| && trace[i] == n
    ensures |positions| == 1
  {
    var k :| 0 <= k < |trace| && trace[k] == n;
    forall i | i in positions ensures i == k {
      assert trace[i] == trace[k];
    }
    assert positions == {k};
  }

  /** The owner of an expired spot hears about it exactly once when the
      spot carries a chat id, and never otherwise. */
  lemma {:induction false} OwnerToldOnce(spots: Spots, subs: Subscriptions, cfg: seq<Json>, now: int,
                                         parse: string -> Option<Stamp>, trace: seq<Notice>, sid: string)
    requires SweepableSpots(spots) && ConfigEntries(cfg) && sid in spots && IsExpired(spots[sid], now, parse)
    requires (set n | n in trace) == DueNotices(spots, subs, cfg, now, parse, spots.Keys) && NoRepeats(trace)
    ensures |OwnerNoticesAt(trace, sid)| == if ChatId(spots[sid]) != "" then 1 else 0
  {
    var n := ReservationExpired(sid, ChatId(spots[sid]), SweepLabel(cfg, sid));
    forall i | 0 <= i < |trace| && trace[i].ReservationExpired? && trace[i].spot == sid
      ensures ChatId(spots[sid]) != "" && trace[i] == n
    {
      assert trace[i] in (set m | m in trace);
      DueNoticeShape(spots, subs, cfg, now, parse, trace[i]);
    }
    if ChatId(spots[sid]) != "" {
      assert n in NoticesFor(spots, subs, cfg, now, parse, sid);
      assert n in DueNotices(spots, subs, cfg, now, parse, spots.Keys);
      assert n in (set m | m in trace);
      SinglePosition(trace, n, OwnerNoticesAt(trace, sid));
    } else {
      assert OwnerNoticesAt(trace, sid) == {};
    }
  }

  /** The subscribers of an expired spot are told exactly once when their
      list is truthy, and never otherwise; the notice carries that list. */
  lemma {:induction false} SubscribersToldOnce(spots: Spots, subs: Subscriptions, cfg: seq<Json>, now: int,
                                               parse: string -> Option<Stamp>, trace: seq<Notice>, sid: string)
    requires SweepableSpots(spots) && ConfigEntries(cfg) && sid in spots && IsExpired(spots[sid], now, parse)
    requires (set n | n in trace) == DueNotices(spots, subs, cfg, now, parse, spots.Keys) && NoRepeats(trace)
    ensures |FreedNoticesAt(trace, sid, SubscribersOf(subs, sid))| == if Truthy(SubscribersOf(subs, sid)) then 1 else 0
    ensures OtherFreedNoticesAt(trace, sid, SubscribersOf(subs, sid)) == {}
  {
    var waiting := SubscribersOf(subs, sid);
    var n := SpotFreed(sid, waiting, SweepLabel(cfg, sid));
    forall i | 0 <= i < |trace| && trace[i].SpotFreed? && trace[i].spot == sid
      ensures Truthy(waiting) && trace[i] == n
    {
      assert trace[i] in (set m | m in trace);
      DueNoticeShape(spots, subs, cfg, now, parse, trace[i]);
    }
    if Truthy(waiting) {
      assert n in NoticesFor(spots, subs, cfg, now, parse, sid);
      assert n in DueNotices(spots, subs, cfg, now, parse, spots.Keys);
      assert n in (set m | m in trace);
      SinglePosition(trace, n, FreedNoticesAt(trace, sid, waiting));
    } else {
      assert FreedNoticesAt(trace, sid, waiting) == {};
    }
    assert OtherFreedNoticesAt(trace, sid, waiting) == {};
  }

  /** An empty subscriber list is not notified and survives the sweep,
      while a notified list is removed. */
  lemma SubscriptionEntryFate(spots: Spots, subs: Subscriptions, now: int, parse: string -> Option<Stamp>, sid: string)
    requires SweepableSpots(spots) && sid in spots && IsExpired(spots[sid], now, parse) && sid in subs
    ensures sid in RemainingSubscriptions(spots, subs, now, parse) <==> !Truthy(subs[sid])
  {
  }

  // ---------------------------------------------------------------- handlers

  /** `spots.get(sid)`. */
  function EntryOf(spots: Spots, sid: string): Json {
    if sid in spots then spots[sid] else JNull
  }

  /** `str(info.get("apartment") or "").strip()`: the apartment a spot entry
      is booked for, as the one-spot rule reads it. */
  function ApartmentText(info: Json): string
    requires info.JObj?
  {
    var a := Get(info, "apartment");
    if Truthy(a) then Strip(PyStr(a)) else ""
  }

  /** Some spot other than `sid` is booked for `apartment`. */
  predicate HoldsOtherSpot(spots: Spots, sid: string, apartment: string)
    requires EntriesAreDicts(spots)
  {
    exists other :: other in spots && other != sid && ApartmentText(spots[other]) == apartment
  }

  /** The fields of an occupy request that the new spot entry is built
      from, as the handler holds them: `until`, `phone`, `carCode` and
      `chatId` already stripped (the handler strips the payload's values
      and the chat id from the user's profile before using them);
      `longTerm` is None when the payload has no "long_term" key. */
  datatype OccupyRequest = OccupyRequest(
    until: string, phone: string, carCode: string, showPhone: bool,
    longTerm: Option<bool>, name: string, chatId: string, updatedAt: string)

  datatype OccupyOutcome = AlreadyHasSpot(current: string) | SpotBusy | Occupied

  /** Only an administrator sets or clears "long_term"; everyone else keeps
      what the spot had (false for a free spot). An administrator who does
      not send the flag keeps it as well. */
  function LongTermAfter(existing: Json, isAdmin: bool, req: OccupyRequest): bool
    requires existing.JObj? || existing == JNull
  {
    if isAdmin && req.longTerm.Some? then req.longTerm.value
    else if Truthy(existing) then Truthy(Get(existing, "long_term"))
    else false
  }

  /** The entry an occupy writes. An administrator parking "long term"
      hides their own apartment (an abandoned car, say); the phone is
      stored only when it may be shown. */
  function OccupiedEntry(existing: Json, apartment: string, isAdmin: bool, req: OccupyRequest): (r: Json)
    requires existing.JObj? || existing == JNull
    ensures SweepableEntry(r) && Until(r) == Strip(req.until) && ChatId(r) == Strip(req.chatId)
    ensures !req.showPhone ==> Get(r, "phone") == JStr("")
    ensures Get(r, "long_term") == JBool(LongTermAfter(existing, isAdmin, req))
    ensures isAdmin && LongTermAfter(existing, isAdmin, req) ==> Get(r, "apartment") == JStr("")
    ensures !(isAdmin && LongTermAfter(existing, isAdmin, req)) ==> Get(r, "apartment") == JStr(apartment)
  {
    var longTerm := LongTermAfter(existing, isAdmin, req);
    JObj(map[
      "apartment" := JStr(if isAdmin && longTerm then "" else apartment),
      "name" := JStr(req.name),
      "car_code" := JStr(req.carCode),
      "phone" := JStr(if req.showPhone then req.phone else ""),
      "show_phone" := JBool(req.showPhone),
      "until" := JStr(req.until),
      "long_term" := JBool(longTerm),
      "updated_at" := JStr(req.updatedAt),
      "telegram_chat_id" := JStr(req.chatId)])
  }

  /** Occupying spot `sid` for `apartment`. A resident who already holds a
      different spot is refused (which one is reported is not fixed here);
      a spot held by another apartment is refused unless the caller is an
      administrator; otherwise the spot's entry is (re)written. */
  method Occupy(spots: Spots, sid: string, apartment: string, isAdmin: bool, req: OccupyRequest)
    returns (outcome: OccupyOutcome, spots': Spots)
    requires apartment != "" && EntriesAreDicts(spots)
    ensures outcome.AlreadyHasSpot? <==> !isAdmin && HoldsOtherSpot(spots, sid, apartment)
    ensures outcome.AlreadyHasSpot? ==>
      outcome.current in spots && outcome.current != sid && ApartmentText(spots[outcome.current]) == apartment
    ensures outcome.SpotBusy? <==>
      !isAdmin && !HoldsOtherSpot(spots, sid, apartment)
      && Truthy(EntryOf(spots, sid)) && Get(EntryOf(spots, sid), "apartment") != JStr(apartment)
    ensures !outcome.Occupied? ==> spots' == spots
    ensures outcome.Occupied? ==> spots' == spots[sid := OccupiedEntry(EntryOf(spots, sid), apartment, isAdmin, req)]
    ensures outcome.Occupied? && !isAdmin ==>
      forall other :: other in spots' && other != sid ==> ApartmentText(spots'[other]) != apartment
  {
    if !isAdmin {
      var unseen := spots.Keys;
      while unseen != {}
        invariant unseen <= spots.Keys
        invariant forall other :: other in spots.Keys - unseen && other != sid ==> ApartmentText(spots[other]) != apartment
        decreases unseen
      {
        var other :| other in unseen;
        if other != sid && ApartmentText(spots[other]) == apartment {
          return AlreadyHasSpot(other), spots;
        }
        unseen := unseen - {other};
      }
    }
    var existing := EntryOf(spots, sid);
    if Truthy(existing) && Get(existing, "apartment") != JStr(apartment) && !isAdmin {
      return SpotBusy, spots;
    }
    outcome, spots' := Occupied, spots[sid := OccupiedEntry(existing, apartment, isAdmin, req)];
  }

  /** A resident who is not an administrator can neither set nor clear the
      "long_term" flag, and the spot stays booked under their apartment. */
  lemma ResidentEntry(existing: Json, apartment: string, req: OccupyRequest)
    requires existing.JObj? || existing == JNull
    ensures var e := OccupiedEntry(existing, apartment, false, req);
      && Get(e, "long_term") == JBool(Truthy(existing) && Truthy(Get(existing, "long_term")))
      && Get(e, "apartment") == JStr(apartment)
  {
  }

  /** An administrator's entry takes "long_term" from the request when it
      has the key, and otherwise keeps the flag of the entry it replaces
      (false for a free spot); a long-term entry hides the apartment. */
  lemma AdminEntry(existing: Json, apartment: string, req: OccupyRequest)
    requires existing.JObj? || existing == JNull
    ensures var e := OccupiedEntry(existing, apartment, true, req);
      var longTerm := if req.longTerm.Some? then req.longTerm.value
                      else Truthy(existing) && Truthy(Get(existing, "long_term"));
      && Get(e, "long_term") == JBool(longTerm)
      && Get(e, "apartment") == JStr(if longTerm then "" else apartment)
  {
  }

  /** `fromisoformat` accepts a `until` with a UTC offset, so occupy stores
      it; from then on the state holds an entry the sweep cannot compare
      with the naive clock, and every later load of the parking state
      raises. */
  lemma AwareUntilBlocksSweep(spots: Spots, sid: string, apartment: string, isAdmin: bool,
                              req: OccupyRequest, parse: string -> Option<Stamp>)
    requires SweepableSpots(spots)
    requires Strip(req.until) != "" && parse(Strip(req.until)).Some? && parse(Strip(req.until)).value.Aware?
    ensures var spots' := spots[sid := OccupiedEntry(EntryOf(spots, sid), apartment, isAdmin, req)];
      SweepableSpots(spots') && !NaiveOnly(spots', parse)
  {
    var e := OccupiedEntry(EntryOf(spots, sid), apartment, isAdmin, req);
    var spots' := spots[sid := e];
    assert !ComparableEntry(spots'[sid], parse);
  }

  /** The label the free handler shows: the label of the FIRST
      configuration entry whose `str(id)` is the spot id, or
      "место <sid>" when that entry has none or no entry matches. */
  function FirstLabel(cfg: seq<Json>, sid: string): string
    requires ConfigEntries(cfg)
  {
    if cfg == [] then "место " + sid
    else if PyStr(Get(cfg[0], "id")) == sid then
      (if Truthy(Get(cfg[0], "label")) then PyStr(Get(cfg[0], "label")) else "место " + sid)
    else FirstLabel(cfg[1..], sid)
  }

  /** The loop of the free handler that looks the label up. */
  method FreeLabel(cfg: seq<Json>, sid: string) returns (title: string)
    requires ConfigEntries(cfg)
    ensures title == FirstLabel(cfg, sid)
    ensures (forall i :: 0 <= i < |cfg| ==> PyStr(Get(cfg[i], "id")) != sid) ==> title == "место " + sid
    ensures forall i :: (0 <= i < |cfg| && PyStr(Get(cfg[i], "id")) == sid
                         && (forall j :: 0 <= j < i ==> PyStr(Get(cfg[j], "id")) != sid)) ==>
        title == (if Truthy(Get(cfg[i], "label")) then PyStr(Get(cfg[i], "label")) else "место " + sid)
  {
    title := "место " + sid;
    var k := 0;
    while k < |cfg|
      invariant 0 <= k <= |cfg|
      invariant forall j :: 0 <= j < k ==> PyStr(Get(cfg[j], "id")) != sid
      invariant title == "место " + sid
      invariant FirstLabel(cfg[k..], sid) == FirstLabel(cfg, sid)
    {
      assert cfg[k..][0] == cfg[k] && cfg[k..][1..] == cfg[k + 1..];
      if PyStr(Get(cfg[k], "id")) == sid {
        var l := Get(cfg[k], "label");
        if Truthy(l) {
          title := PyStr(l);
        }
        return;
      }
      k := k + 1;
    }
  }

  datatype FreeOutcome = AlreadyFree | Forbidden | Freed

  /** Freeing spot `sid`. A free spot only loses a stale subscription entry;
      only the holder or an administrator may free a held spot; freeing
      tells the spot's subscribers (not its holder), drops their entry and
      removes the spot. `save` says whether the state is written back. */
  method Free(spots: Spots, subs: Subscriptions, sid: string, apartment: string, isAdmin: bool, cfg: seq<Json>)
    returns (outcome: FreeOutcome, spots': Spots, subs': Subscriptions, notices: seq<Notice>, save: bool)
    requires EntriesAreDicts(spots) && ConfigEntries(cfg)
    ensures outcome.AlreadyFree? <==> !Truthy(EntryOf(spots, sid))
    ensures outcome.Forbidden? <==>
      Truthy(EntryOf(spots, sid)) && Get(EntryOf(spots, sid), "apartment") != JStr(apartment) && !isAdmin
    ensures outcome.AlreadyFree? ==> spots' == spots && subs' == subs - {sid} && notices == [] && save == (sid in subs)
    ensures outcome.Forbidden? ==> spots' == spots && subs' == subs && notices == [] && !save
    ensures outcome.Freed? ==> spots' == spots - {sid} && save
    ensures outcome.Freed? ==> subs' == if Truthy(SubscribersOf(subs, sid)) then subs - {sid} else subs
    ensures outcome.Freed? ==> |notices| == (if Truthy(SubscribersOf(subs, sid)) then 1 else 0)
    ensures forall n :: n in notices ==>
      n.SpotFreed? && n.spot == sid && n.subscribers == SubscribersOf(subs, sid) && n.title == FirstLabel(cfg, sid)
  {
    spots', subs', notices, save := spots, subs, [], false;
    var existing := EntryOf(spots, sid);
    if !Truthy(existing) {
      if sid in subs {
        subs' := subs - {sid};
        save := true;
      }
      return AlreadyFree, spots', subs', notices, save;
    }
    if Get(existing, "apartment") != JStr(apartment) && !isAdmin {
      return Forbidden, spots', subs', notices, save;
    }
    var title := FreeLabel(cfg, sid);
    var waiting := SubscribersOf(subs, sid);
    if Truthy(waiting) {
      notices := [SpotFreed(sid, waiting, title)];
      subs' := subs - {sid};
    }
    spots' := spots - {sid};
    save := true;
    outcome := Freed;
  }

  // ---------------------------------------------------------------- subscriptions

  /** A subscription entry the handlers can treat as a list:
      `subscriptions.get(sid) or []` must be a list. */
  predicate ListOrFalsy(j: Json) {
    !Truthy(j) || j.JArr?
  }

  /** `subscriptions.get(sid) or []` as a list. */
  function SubscriberList(subs: Subscriptions, sid: string): seq<Json>
    requires ListOrFalsy(SubscribersOf(subs, sid))
  {
    if Truthy(SubscribersOf(subs, sid)) then SubscribersOf(subs, sid).items else []
  }

  predicate NoDuplicates(xs: seq<Json>) {
    forall i, j :: 0 <= i < j < |xs| ==> xs[i] != xs[j]
  }

  /** Subscribing chat `chatId` to spot `sid`: nothing happens when it is
      already on the list; otherwise it is appended. */
  method Subscribe(subs: Subscriptions, sid: string, chatId: string) returns (added: bool, subs': Subscriptions)
    requires ListOrFalsy(SubscribersOf(subs, sid))
    ensures added <==> JStr(chatId) !in SubscriberList(subs, sid)
    ensures !added ==> subs' == subs
    ensures added ==> subs' == subs[sid := JArr(SubscriberList(subs, sid) + [JStr(chatId)])]
    ensures ListOrFalsy(SubscribersOf(subs', sid)) && JStr(chatId) in SubscriberList(subs', sid)
    ensures NoDuplicates(SubscriberList(subs, sid)) ==> NoDuplicates(SubscriberList(subs', sid))
  {
    var waiting := SubscriberList(subs, sid);
    if JStr(chatId) in waiting {
      return false, subs;
    }
    waiting := waiting + [JStr(chatId)];
    added, subs' := true, subs[sid := JArr(waiting)];
  }

  /** Unsubscribing chat `chatId` from spot `sid`: every occurrence of it
      is removed, and the spot's entry is dropped when no one is left.
      `removed` says whether anything changed (and is written back). */
  method Unsubscribe(subs: Subscriptions, sid: string, chatId: string) returns (removed: bool, subs': Subscriptions)
    requires ListOrFalsy(SubscribersOf(subs, sid))
    ensures removed <==> JStr(chatId) in SubscriberList(subs, sid)
    ensures !removed ==> subs' == subs
    ensures removed && Without(SubscriberList(subs, sid), JStr(chatId)) == [] ==> subs' == subs - {sid}
    ensures removed && Without(SubscriberList(subs, sid), JStr(chatId)) != [] ==>
      subs' == subs[sid := JArr(Without(SubscriberList(subs, sid), JStr(chatId)))]
    ensures ListOrFalsy(SubscribersOf(subs', sid)) && JStr(chatId) !in SubscriberList(subs', sid)
  {
    var waiting := SubscriberList(subs, sid);
    if JStr(chatId) !in waiting {
      return false, subs;
    }
    waiting := Without(waiting, JStr(chatId));
    if waiting != [] {
      subs' := subs[sid := JArr(waiting)];
    } else {
      subs' := subs - {sid};
    }
    removed := true;
  }

  /** Unsubscribing right after subscribing a chat that was not on a
      non-empty list gives the list back. */
  lemma UnsubscribeUndoesSubscribe(waiting: seq<Json>, chatId: string)
    requires JStr(chatId) !in waiting
    ensures Without(waiting + [JStr(chatId)], JStr(chatId)) == waiting
  {
    WithoutAppended(waiting, JStr(chatId));
    WithoutAbsent(waiting, JStr(chatId));
  }
}
