/** The table of parked authorizations is a queue: it never holds more than `MAX_PENDING`, and
    what overflows it is always the transaction that was parked first. */
module PendingTable {
  import opened PyDict
  import opened LimiterSpec
  import opened TokenSpec
  import opened LoginSpec
  import opened LoginRuns

  /** Parked in the order of the keys. */
  predicate Ascending(keys: seq<string>, vals: map<string, Pending>)
    requires forall t | t in keys :: t in vals
  {
    keys == [] ||
    ((forall t | t in keys :: vals[keys[0]].createdAt <= vals[t].createdAt) && Ascending(keys[1..], vals))
  }

  ghost predicate Queue(pending: Dict<string, Pending>, now: real) {
    && Ok(pending)
    && |pending.keys| <= MAX_PENDING
    && Ascending(pending.keys, pending.vals)
    && forall t | t in pending.vals :: pending.vals[t].createdAt <= now
  }

  /** How many keys follow `txn`. */
  function Behind(keys: seq<string>, txn: string): nat
    requires txn in keys
  {
    if keys[0] == txn then |keys| - 1 else Behind(keys[1..], txn)
  }

  lemma {:induction false} AscendingAmong(keys: seq<string>, vals: map<string, Pending>, keep: set<string>,
                                          kept: map<string, Pending>)
    requires forall t | t in keys :: t in vals
    requires Ascending(keys, vals)
    requires forall t | t in keys && t in keep :: t in kept && kept[t] == vals[t]
    ensures Ascending(Among(keys, keep), kept)
  {
    if keys != [] {
      var rest := Among(keys[1..], keep);
      AscendingAmong(keys[1..], vals, keep, kept);
      if keys[0] in keep {
        assert Among(keys, keep) == [keys[0]] + rest;
        assert ([keys[0]] + rest)[1..] == rest;
      } else {
        assert Among(keys, keep) == rest;
      }
    }
  }

  lemma {:induction false} AscendingSnoc(keys: seq<string>, vals: map<string, Pending>, txn: string, p: Pending)
    requires forall t | t in keys :: t in vals && vals[t].createdAt <= p.createdAt
    requires Ascending(keys, vals) && txn !in keys
    ensures Ascending(keys + [txn], vals[txn := p])
  {
    if keys == [] {
      assert keys + [txn] == [txn] && [txn][1..] == [];
      assert Ascending([txn][1..], vals[txn := p]);
    } else {
      AscendingSnoc(keys[1..], vals, txn, p);
      assert (keys + [txn])[1..] == keys[1..] + [txn];
      assert (keys + [txn])[0] == keys[0] && keys[0] in keys;
    }
  }

  /** Deleting others, nobody gets in behind. */
  lemma {:induction false} BehindAmong(keys: seq<string>, keep: set<string>, txn: string)
    requires txn in keys && txn in keep
    ensures Behind(Among(keys, keep), txn) <= Behind(keys, txn)
  {
    var rest := Among(keys[1..], keep);
    if keys[0] == txn {
      assert Among(keys, keep) == [txn] + rest;
    } else {
      BehindAmong(keys[1..], keep, txn);
      if keys[0] in keep {
        assert Among(keys, keep) == [keys[0]] + rest;
        assert ([keys[0]] + rest)[1..] == rest;
      } else {
        assert Among(keys, keep) == rest;
      }
    }
  }

  lemma {:induction false} BehindSnoc(keys: seq<string>, txn: string, last: string)
    requires txn in keys
    ensures Behind(keys + [last], txn) == Behind(keys, txn) + 1
  {
    if keys[0] != txn {
      BehindSnoc(keys[1..], txn, last);
      assert (keys + [last])[1..] == keys[1..] + [last];
    }
  }

  lemma RestrictQueue(pending: Dict<string, Pending>, keep: set<string>, now: real)
    requires Queue(pending, now)
    ensures Queue(Restrict(pending, keep), now)
  {
    RestrictOk(pending, keep);
    AscendingAmong(pending.keys, pending.vals, keep, Restrict(pending, keep).vals);
  }

  /** Whatever the order of the keys, room is made by the oldest transactions, and for one entry. */
  lemma {:induction false} OldestMakeRoom(pending: Dict<string, Pending>)
    requires Ok(pending)
    ensures var left := MakeRoom(pending);
      && |left.keys| == (if |pending.keys| < 64 then |pending.keys| else 63)
      && (forall t | t in left.vals :: t in pending.vals && left.vals[t] == pending.vals[t])
      && (forall t, u | t in left.vals && u in pending.vals && u !in left.vals ::
            pending.vals[u].createdAt <= pending.vals[t].createdAt)
    decreases |pending.keys|
  {
    if |pending.keys| >= MAX_PENDING {
      var i := FirstMin(pending.keys, CreationTimes(pending));
      var oldest := pending.keys[i];
      PopShrinks(pending, oldest);
      RoomMade(Pop(pending, oldest));
      OldestMakeRoom(Pop(pending, oldest));
      forall t | t in pending.vals ensures pending.vals[oldest].createdAt <= pending.vals[t].createdAt {
        OldestAmong(pending, i, t);
      }
    }
  }

  lemma OldestAmong(pending: Dict<string, Pending>, i: nat, t: string)
    requires Ok(pending) && t in pending.vals && pending.keys != []
    requires i == FirstMin(pending.keys, CreationTimes(pending))
    ensures pending.vals[pending.keys[i]].createdAt <= pending.vals[t].createdAt
  {
    var j :| 0 <= j < |pending.keys| && pending.keys[j] == t;
    assert CreationTimes(pending)[pending.keys[i]] <= CreationTimes(pending)[pending.keys[j]];
  }

  lemma HeadIsOldest(pending: Dict<string, Pending>, now: real)
    requires Queue(pending, now) && pending.keys != []
    ensures FirstMin(pending.keys, CreationTimes(pending)) == 0
  {
    var i := FirstMin(pending.keys, CreationTimes(pending));
    assert CreationTimes(pending)[pending.keys[i]] <= CreationTimes(pending)[pending.keys[0]];
  }

  /** The oldest entry of a queue is its first, and one eviction makes room. */
  lemma EvictsTheHead(pending: Dict<string, Pending>, now: real)
    requires Queue(pending, now)
    ensures MakeRoom(pending).keys == if |pending.keys| == MAX_PENDING then pending.keys[1..] else pending.keys
    ensures MakeRoom(pending) == if |pending.keys| == MAX_PENDING then Pop(pending, pending.keys[0]) else pending
  {
    if |pending.keys| == MAX_PENDING {
      HeadIsOldest(pending, now);
      PopHead(pending);
      assert MakeRoom(Pop(pending, pending.keys[0])) == Pop(pending, pending.keys[0]);
    }
  }

  lemma PopHead(pending: Dict<string, Pending>)
    requires Ok(pending) && pending.keys != []
    ensures Ok(Pop(pending, pending.keys[0])) && Pop(pending, pending.keys[0]).keys == pending.keys[1..]
  {
    PopOk(pending, pending.keys[0]);
    AmongHead(pending.keys, pending.vals.Keys - {pending.keys[0]});
  }

  lemma MakeRoomQueue(pending: Dict<string, Pending>, now: real)
    requires Queue(pending, now)
    ensures Queue(MakeRoom(pending), now) && |MakeRoom(pending).keys| < MAX_PENDING
    ensures forall t | t in MakeRoom(pending).vals :: t in pending.vals
  {
    EvictsTheHead(pending, now);
    if |pending.keys| == MAX_PENDING {
      RestrictQueue(pending, pending.vals.Keys - {pending.keys[0]}, now);
    }
  }

  lemma PutQueue(pending: Dict<string, Pending>, now: real, txn: string, p: Pending)
    requires Queue(pending, now) && |pending.keys| < MAX_PENDING && txn !in pending.vals && p.createdAt >= now
    ensures Queue(Put(pending, txn, p), p.createdAt) && Put(pending, txn, p).keys == pending.keys + [txn]
  {
    PutOk(pending, txn, p);
    AscendingSnoc(pending.keys, pending.vals, txn, p);
  }

  /** First in, first out: an accepted authorization drops the expired transactions and, when
      the rest fill the table, the one parked first; then it goes to the end. */
  lemma AuthorizeQueues(a: Auth, cfg: Config, client: string, p: Params, before: real, now: real, txn: string)
    requires Sound(a) && Queue(a.pending, before) && before <= now && txn !in a.pending.vals
    requires Refusing(cfg, p).None?
    ensures var live := Among(a.pending.keys, Fresh(a.pending, cfg.pendingTtl, now));
      var b := Authorize(a, cfg, client, p, now, txn).0;
      && b.pending.keys == (if |live| == MAX_PENDING then live[1..] else live) + [txn]
      && Queue(b.pending, now)
  {
    var pruned := Restrict(a.pending, Fresh(a.pending, cfg.pendingTtl, now));
    RestrictQueue(a.pending, Fresh(a.pending, cfg.pendingTtl, now), before);
    EvictsTheHead(pruned, before);
    MakeRoomQueue(pruned, before);
    PutQueue(MakeRoom(pruned), before, txn, Park(client, p, now));
  }

  // ------------------------------------------------------------------------------ runs

  /** `b` is left of `a` at `now`: only the expired are gone, and the transaction completed. */
  ghost predicate LeftOf(a: Auth, b: Auth, keep: set<string>, cfg: Config, now: real) {
    && b.pending == Restrict(a.pending, keep)
    && forall t | t in a.pending.vals && t !in keep ::
         a.pending.vals[t].createdAt + cfg.pendingTtl as real < now || t in b.completed
  }

  lemma JudgeDeletes(a: Auth, s: Server, op: Op, now: real) returns (keep: set<string>)
    requires Sound(a) && s.limits.maxTracked > 0 && op.Submit?
    ensures LeftOf(a, Judge(a, s.cfg, s.limits, op.txn, op.password, op.ip, now, op.code).0, keep, s.cfg, now)
    ensures keep <= a.pending.vals.Keys
  {
    RestrictAll(a.pending);
    keep := a.pending.vals.Keys;
    if op.txn in a.pending.vals && op.password == s.cfg.operatorPassword {
      keep := keep - {op.txn};
    }
  }

  lemma SubmitDeletes(a: Auth, s: Server, op: Op, now: real) returns (keep: set<string>)
    requires Sound(a) && s.limits.maxTracked > 0 && op.Submit?
    ensures LeftOf(a, CompleteLogin(a, s.cfg, s.limits, op.txn, op.password, op.ip, now, op.code).0, keep, s.cfg, now)
  {
    var unlocked := a.(limiter := LockedFor(a.limiter, op.ip, now).0);
    if LockedFor(a.limiter, op.ip, now).1 > 0.0 {
      keep := a.pending.vals.Keys;
      RestrictAll(a.pending);
    } else {
      UnlockedSound(a, s.cfg, s.limits, op.ip, now);
      var live := Fresh(a.pending, s.cfg.pendingTtl, now);
      keep := JudgeDeletes(PrunePending(unlocked, s.cfg, now), s, op, now);
      RestrictRestrict(a.pending, live, keep);
    }
  }

  /** Every other step only deletes: the expired, and the transaction it completes. */
  lemma OthersDelete(h: History, s: Server, step: Step) returns (keep: set<string>)
    requires Sound(h.auth) && s.limits.maxTracked > 0 && !step.op.Ask?
    ensures LeftOf(h.auth, Next(h, s, step).auth, keep, s.cfg, step.now)
  {
    var pending := h.auth.pending;
    keep := Fresh(pending, s.cfg.pendingTtl, step.now);
    if step.op.Submit? {
      keep := SubmitDeletes(h.auth, s, step.op, step.now);
    } else if step.op.Exchange? || step.op.Elsewhere? || Next(h, s, step).auth.pending == pending {
      keep := pending.vals.Keys;
      RestrictAll(pending);
    }
  }

  ghost predicate Clocked(before: real, steps: seq<Step>)
    decreases |steps|
  {
    steps == [] || (before <= steps[0].now && Clocked(steps[0].now, steps[1..]))
  }

  predicate Accepted(step: Step, cfg: Config) {
    step.op.Ask? && Refusing(cfg, step.op.params).None?
  }

  /** How many authorizations were accepted. */
  function Parkings(steps: seq<Step>, cfg: Config): nat {
    if steps == [] then 0 else (if Accepted(steps[0], cfg) then 1 else 0) + Parkings(steps[1..], cfg)
  }

  lemma StepQueues(h: History, s: Server, step: Step, before: real)
    requires Tables(h) && Logs(h) && Proper(h, step) && s.limits.maxTracked > 0
    requires Queue(h.auth.pending, before) && before <= step.now
    ensures Queue(Next(h, s, step).auth.pending, step.now)
  {
    if step.op.Ask? {
      if Refusing(s.cfg, step.op.params).None? {
        AuthorizeQueues(h.auth, s.cfg, step.op.client, step.op.params, before, step.now, step.op.txn);
      }
    } else {
      var keep := OthersDelete(h, s, step);
      RestrictQueue(h.auth.pending, keep, before);
    }
  }

  /** With a clock that does not run backwards the table never outgrows `MAX_PENDING`, and is in
      the order of parking. */
  lemma {:induction false} RunQueues(h: History, s: Server, steps: seq<Step>, before: real)
    requires s.limits.maxTracked > 0 && Tables(h) && Logs(h) && Run(h, s, steps) && Clocked(before, steps)
    requires Queue(h.auth.pending, before)
    ensures var pending := End(h, s, steps).auth.pending;
      Ok(pending) && |pending.vals| <= MAX_PENDING && Ascending(pending.keys, pending.vals)
    decreases |steps|
  {
    if steps == [] {
      KeyCount(h.auth.pending);
    } else {
      StepKeeps(h, s, steps[0]);
      StepQueues(h, s, steps[0], before);
      RunQueues(Next(h, s, steps[0]), s, steps[1..], steps[0].now);
    }
  }

  lemma PendingTableIsBounded(s: Server, steps: seq<Step>, start: real)
    requires s.limits.maxTracked > 0 && Run(BEGIN, s, steps) && Clocked(start, steps)
    ensures |End(BEGIN, s, steps).auth.pending.vals| <= 64
  {
    RunQueues(BEGIN, s, steps, start);
  }

  /** One step of a transaction that is neither completed nor expired. */
  lemma StepSpares(h: History, s: Server, step: Step, before: real, txn: string)
    requires Tables(h) && Logs(h) && Proper(h, step) && s.limits.maxTracked > 0
    requires Queue(h.auth.pending, before) && before <= step.now && txn in h.auth.pending.vals
    requires step.now <= h.auth.pending.vals[txn].createdAt + s.cfg.pendingTtl as real
    requires txn !in Next(h, s, step).mint
    requires Behind(h.auth.pending.keys, txn) + (if Accepted(step, s.cfg) then 1 else 0) < MAX_PENDING
    ensures var q := Next(h, s, step).auth.pending;
      && txn in q.vals && q.vals[txn] == h.auth.pending.vals[txn] && Ok(q)
      && Behind(q.keys, txn) <= Behind(h.auth.pending.keys, txn) + (if Accepted(step, s.cfg) then 1 else 0)
  {
    if step.op.Ask? {
      if Refusing(s.cfg, step.op.params).None? {
        AskSpares(h.auth, s.cfg, step.op.client, step.op.params, before, step.now, step.op.txn, txn);
      }
    } else {
      var keep := OthersDelete(h, s, step);
      StepKeeps(h, s, step);
      assert txn !in Next(h, s, step).auth.completed;
      RestrictOk(h.auth.pending, keep);
      BehindAmong(h.auth.pending.keys, keep, txn);
    }
  }

  lemma AskSpares(a: Auth, cfg: Config, client: string, p: Params, before: real, now: real, newcomer: string,
                  txn: string)
    requires Sound(a) && Queue(a.pending, before) && before <= now && newcomer !in a.pending.vals
    requires Refusing(cfg, p).None? && txn in a.pending.vals
    requires now <= a.pending.vals[txn].createdAt + cfg.pendingTtl as real
    requires Behind(a.pending.keys, txn) + 1 < MAX_PENDING
    ensures var q := Authorize(a, cfg, client, p, now, newcomer).0.pending;
      && txn in q.vals && q.vals[txn] == a.pending.vals[txn] && Ok(q)
      && Behind(q.keys, txn) <= Behind(a.pending.keys, txn) + 1
  {
    var keep := Fresh(a.pending, cfg.pendingTtl, now);
    var live := Among(a.pending.keys, keep);
    AuthorizeQueues(a, cfg, client, p, before, now, newcomer);
    BehindAmong(a.pending.keys, keep, txn);
    var room := if |live| == MAX_PENDING then live[1..] else live;
    if |live| == MAX_PENDING {
      assert live[0] != txn;
      assert Behind(live[1..], txn) == Behind(live, txn);
    }
    assert txn in room;
    BehindSnoc(room, txn, newcomer);
    AuthorizeParks(a, cfg, client, p, now, newcomer);
  }

  lemma {:induction false} MintGrows(h: History, s: Server, steps: seq<Step>, txn: string)
    requires s.limits.maxTracked > 0 && Run(h, s, steps) && txn in h.mint
    ensures txn in End(h, s, steps).mint
    decreases |steps|
  {
    if steps != [] {
      MintGrows(Next(h, s, steps[0]), s, steps[1..], txn);
    }
  }

  /** A parked transaction survives any `MAX_PENDING - 1` later accepted authorizations, less those
      already parked behind it, unless it is completed or expires. */
  lemma {:induction false} ParkedSurvives(h: History, s: Server, steps: seq<Step>, before: real, txn: string)
    requires s.limits.maxTracked > 0 && Tables(h) && Logs(h) && Run(h, s, steps) && Clocked(before, steps)
    requires Queue(h.auth.pending, before) && txn in h.auth.pending.vals
    requires Behind(h.auth.pending.keys, txn) + Parkings(steps, s.cfg) < MAX_PENDING
    requires txn !in End(h, s, steps).mint
    requires forall step | step in steps :: step.now <= h.auth.pending.vals[txn].createdAt + s.cfg.pendingTtl as real
    ensures txn in End(h, s, steps).auth.pending.vals
    ensures End(h, s, steps).auth.pending.vals[txn] == h.auth.pending.vals[txn]
    decreases |steps|
  {
    if steps != [] {
      var next := Next(h, s, steps[0]);
      StepKeeps(h, s, steps[0]);
      StepQueues(h, s, steps[0], before);
      if txn in next.mint {
        MintGrows(next, s, steps[1..], txn);
      }
      StepSpares(h, s, steps[0], before, txn);
      ParkedSurvives(next, s, steps[1..], steps[0].now, txn);
    }
  }
}
