/** How a client's bytes are cut into reads, and exactly when the cutting shows. */
module ImapCuttings {
  import opened Utf8
  import opened Text
  import opened MailStore
  import opened ImapSession
  import opened ImapService
  import R = ImapReader

  /** The size of the connection's buffer. */
  const READ_SIZE: nat := 4096

  /** Reads that carry a stream: none is empty, and none is larger than the buffer. */
  predicate Cuts(chunks: seq<Bytes>, stream: Bytes) {
    R.Concat(chunks) == stream && forall i | 0 <= i < |chunks| :: 0 < |chunks[i]| <= READ_SIZE
  }

  /** The stream parses. */
  predicate Parses(stream: Bytes) {
    R.Drain(R.More(R.START, stream)).ending.Quiet?
  }

  /** All the commands of a stream that parses. */
  function Commands(stream: Bytes): seq<R.Command> {
    R.Drain(R.More(R.START, stream)).commands
  }

  // ------------------------------------------------------ what the reads return

  /** The commands that come out of each read. */
  function Batches(r: R.Reader, chunks: seq<Bytes>): (bs: seq<seq<R.Command>>)
    ensures |bs| == |chunks|
    decreases |chunks|
  {
    if chunks == [] then []
    else
      var fed := R.Feed(r, chunks[0]);
      [fed.commands] + Batches(fed.reader, chunks[1..])
  }

  function Flat(bs: seq<seq<R.Command>>): seq<R.Command> {
    if bs == [] then [] else bs[0] + Flat(bs[1..])
  }

  /** The commands that stand in the buffer after the last read, behind a literal's marker. */
  function Held(r: R.Reader, chunks: seq<Bytes>): seq<R.Command>
    decreases |chunks|
  {
    if chunks == [] then R.Settle(r).commands else Held(R.Feed(r, chunks[0]).reader, chunks[1..])
  }

  lemma {:induction false} ReturnedAndHeld(r: R.Reader, chunks: seq<Bytes>)
    requires R.FeedAll(r, chunks).ending.Quiet?
    ensures R.FeedAll(r, chunks).commands == Flat(Batches(r, chunks)) + Held(r, chunks)
    decreases |chunks|
  {
    hide R.Feed, R.Settle;
    if chunks != [] {
      var fed := R.Feed(r, chunks[0]);
      ReturnedAndHeld(fed.reader, chunks[1..]);
      var bs := Batches(r, chunks);
      assert bs[1..] == Batches(fed.reader, chunks[1..]);
      assert fed.commands + (Flat(bs[1..]) + Held(fed.reader, chunks[1..])) == Flat(bs) + Held(r, chunks);
    }
  }

  /** Whatever the cutting, what is returned and what is held are the commands of the stream. */
  lemma CutCommands(chunks: seq<Bytes>, stream: Bytes)
    requires Cuts(chunks, stream) && Parses(stream)
    ensures Commands(stream) == Flat(Batches(R.START, chunks)) + Held(R.START, chunks)
    ensures R.FeedAll(R.START, chunks).ending.Quiet?
  {
    hide R.FeedAll, R.Drain, Batches, Held;
    R.FeedsAreDrain(R.START, chunks);
    ReturnedAndHeld(R.START, chunks);
  }

  // ----------------------------------------------------- reads and batches

  ghost function TakeAll(cfg: Config, c: Talk, bs: seq<seq<R.Command>>): Talk
    decreases |bs|
  {
    if bs == [] then c else TakeAll(cfg, Take(cfg, c, bs[0]), bs[1..])
  }

  /** One command at a time: what a client sees that waits for the answer to each. */
  ghost function Alone(cfg: Config, c: Talk, cmds: seq<R.Command>): Talk
    decreases |cmds|
  {
    if cmds == [] then c else Alone(cfg, Take(cfg, c, [cmds[0]]), cmds[1..])
  }

  lemma {:induction false} OverStays(cfg: Config, c: Talk, bs: seq<seq<R.Command>>)
    requires c.over
    ensures TakeAll(cfg, c, bs) == c
    decreases |bs|
  {
    if bs != [] { OverStays(cfg, c, bs[1..]); }
  }

  lemma {:induction false} OverReads(cfg: Config, c: Conn, chunks: seq<Bytes>)
    requires c.talk.over
    ensures ReadAll(cfg, c, chunks) == c
    decreases |chunks|
  {
    if chunks != [] { OverReads(cfg, c, chunks[1..]); }
  }

  lemma {:induction false} ReadsAreBatches(cfg: Config, c: Conn, chunks: seq<Bytes>)
    requires R.FeedAll(c.reader, chunks).ending.Quiet? && forall i | 0 <= i < |chunks| :: chunks[i] != []
    ensures ReadAll(cfg, c, chunks).talk == TakeAll(cfg, c.talk, Batches(c.reader, chunks))
    decreases |chunks|
  {
    hide R.Feed, R.Settle, Take;
    if chunks != [] {
      var fed := R.Feed(c.reader, chunks[0]);
      var bs := Batches(c.reader, chunks);
      assert bs[0] == fed.commands && bs[1..] == Batches(fed.reader, chunks[1..]);
      assert chunks[0] != [];
      if c.talk.over {
        OverReads(cfg, c, chunks);
        OverStays(cfg, c.talk, bs);
      } else {
        ReadsAreBatches(cfg, Conn(fed.reader, Take(cfg, c.talk, fed.commands)), chunks[1..]);
      }
    }
  }

  lemma {:induction false} AloneAppend(cfg: Config, c: Talk, xs: seq<R.Command>, ys: seq<R.Command>)
    ensures Alone(cfg, c, xs + ys) == Alone(cfg, Alone(cfg, c, xs), ys)
    decreases |xs|
  {
    hide Take;
    if xs == [] {
      assert xs + ys == ys;
    } else {
      assert (xs + ys)[1..] == xs[1..] + ys;
      AloneAppend(cfg, Take(cfg, c, [xs[0]]), xs[1..], ys);
    }
  }

  lemma {:induction false} OverAlone(cfg: Config, c: Talk, cmds: seq<R.Command>)
    requires c.over
    ensures Alone(cfg, c, cmds) == c
    decreases |cmds|
  {
    if cmds != [] { OverAlone(cfg, c, cmds[1..]); }
  }

  /** One command, alone, while the connection does not idle. */
  lemma OneAlone(cfg: Config, c: Talk, cmd: R.Command)
    requires !c.over && c.idle.None?
    ensures var t := Handle(cfg, c.db, c.session, cmd);
            Take(cfg, c, [cmd])
            == if cmd.name == IDLE then c.(idle := Some(Waiting(cmd.tag, [], [])))
               else c.(session := t.session, db := t.db, replies := c.replies + [t.reply], over := cmd.name == LOGOUT)
  {
    hide Handle;
    assert [cmd][1..] == [];
    var t := Handle(cfg, c.db, c.session, cmd);
    assert [] + [t.reply] == [t.reply];
    assert c.(session := t.session, db := t.db).(replies := c.replies + [t.reply])
        == HandleAll(cfg, c.(session := t.session, db := t.db), [t.reply], []);
  }

  // ------------------------------------------------------------ where a batch stops

  /** The first IDLE or LOGOUT of a batch: how many commands come before it, and what stands behind the IDLE. */
  datatype Stop = Runs | Idles(ahead: nat, behind: seq<R.Command>) | Leaves

  function StopOf(cmds: seq<R.Command>): Stop {
    if cmds == [] then Runs
    else if cmds[0].name == IDLE then Idles(0, cmds[1..])
    else if cmds[0].name == LOGOUT then Leaves
    else
      match StopOf(cmds[1..])
      case Idles(n, behind) => Idles(n + 1, behind)
      case stop => stop
  }

  lemma {:induction false} StopOfAppend(xs: seq<R.Command>, ys: seq<R.Command>)
    ensures StopOf(xs + ys) == match StopOf(xs)
                               case Runs => (match StopOf(ys) case Idles(n, b) => Idles(|xs| + n, b) case s => s)
                               case Idles(n, b) => Idles(n, b + ys)
                               case Leaves => Leaves
  {
    if xs == [] {
      assert xs + ys == ys;
    } else {
      assert (xs + ys)[1..] == xs[1..] + ys;
      StopOfAppend(xs[1..], ys);
    }
  }

  lemma {:induction false} IdleFirst(cmds: seq<R.Command>)
    requires StopOf(cmds).Idles? && StopOf(cmds).ahead == 0
    ensures cmds != [] && cmds[0].name == IDLE && StopOf(cmds).behind == cmds[1..]
  {
  }

  /** Without an IDLE in the way, a batch does what its commands do one at a time. */
  lemma {:induction false} BatchAlone(cfg: Config, c: Talk, out: seq<string>, cmds: seq<R.Command>)
    requires !c.over && c.idle.None? && !StopOf(cmds).Idles?
    ensures var all := HandleAll(cfg, c, out, cmds);
            && all == Alone(cfg, c.(replies := c.replies + out), cmds)
            && all.idle.None? && all.over == StopOf(cmds).Leaves?
    decreases |cmds|
  {
    hide Handle, Take;
    if cmds != [] {
      var c' := c.(replies := c.replies + out);
      OneAlone(cfg, c', cmds[0]);
      var t := Handle(cfg, c.db, c.session, cmds[0]);
      assert c.replies + out + [t.reply] == c.replies + (out + [t.reply]);
      if cmds[0].name == LOGOUT {
        OverAlone(cfg, Take(cfg, c', [cmds[0]]), cmds[1..]);
      } else {
        BatchAlone(cfg, c.(session := t.session, db := t.db), out + [t.reply], cmds[1..]);
      }
    }
  }

  /** An idling connection drops what is no DONE. */
  lemma {:induction false} DroppedAlone(cfg: Config, c: Talk, cmds: seq<R.Command>)
    requires c.idle.Some? && !HasDone(cmds)
    ensures Alone(cfg, c, cmds) == c
    decreases |cmds|
  {
    if cmds != [] {
      assert cmds[0].name != DONE && forall i | 0 <= i < |cmds| - 1 :: cmds[1..][i] == cmds[i + 1];
      DroppedAlone(cfg, c, cmds[1..]);
    }
  }

  // -------------------------------------------------------------- polite reads

  /** Where a client and its server are: awake, idling (with nothing read behind the IDLE, or with something), or done. */
  datatype Mode = Awake | Dozing(clear: bool) | Gone

  /** A batch that does not mix an IDLE with the commands around it: replies are not withheld at an IDLE, a DONE does not
      come in the same read as its IDLE, nor a command in the same read as a DONE before it. */
  predicate PoliteBatch(m: Mode, batch: seq<R.Command>) {
    match m
    case Gone => true
    case Awake => StopOf(batch).Idles? ==> StopOf(batch).ahead == 0 && !HasDone(StopOf(batch).behind)
    case Dozing(clear) => HasDone(batch) ==> clear && batch[|batch| - 1].name == DONE && !HasDone(batch[..|batch| - 1])
  }

  function Then(m: Mode, batch: seq<R.Command>): Mode {
    match m
    case Gone => Gone
    case Awake => (match StopOf(batch) case Runs => Awake case Leaves => Gone case Idles(_, b) => Dozing(b == []))
    case Dozing(_) => if HasDone(batch) then Awake else m
  }

  predicate Polite(m: Mode, bs: seq<seq<R.Command>>)
    decreases |bs|
  {
    bs == [] || (PoliteBatch(m, bs[0]) && Polite(Then(m, bs[0]), bs[1..]))
  }

  function ThenAll(m: Mode, bs: seq<seq<R.Command>>): Mode
    decreases |bs|
  {
    if bs == [] then m else ThenAll(Then(m, bs[0]), bs[1..])
  }

  /** The client and the server see the same: the same session and store, the same replies written, and the same IDLE. */
  predicate Alike(a: Talk, b: Talk) {
    && a.session == b.session && a.db == b.db && a.replies == b.replies && a.over == b.over
    && (a.idle.Some? <==> b.idle.Some?) && (a.idle.Some? ==> a.idle.value.tag == b.idle.value.tag)
  }

  /** The dialogue is in the mode, and no reply is withheld. */
  predicate In(m: Mode, c: Talk) {
    match m
    case Gone => c.over
    case Awake => !c.over && c.idle.None?
    case Dozing(clear) => !c.over && c.idle.Some? && c.idle.value.unsent == [] && (clear ==> c.idle.value.behind == [])
  }

  lemma AwakeStep(cfg: Config, c: Talk, batch: seq<R.Command>)
    requires In(Awake, c) && PoliteBatch(Awake, batch)
    ensures Alike(Take(cfg, c, batch), Alone(cfg, c, batch)) && In(Then(Awake, batch), Take(cfg, c, batch))
    ensures Alone(cfg, c, batch).idle.Some? ==> Alone(cfg, c, batch).idle.value == Waiting(batch[0].tag, [], [])
  {
    hide Handle, Take, HandleAll, StopOf, HasDone, Alone;
    assert Take(cfg, c, batch) == HandleAll(cfg, c, [], batch) by { TakeAwake(cfg, c, batch); }
    if StopOf(batch).Idles? {
      IdleFirst(batch);
      IdleTaken(cfg, c, batch);
    } else {
      BatchAlone(cfg, c, [], batch);
      assert c.replies + [] == c.replies;
    }
  }

  lemma TakeAwake(cfg: Config, c: Talk, batch: seq<R.Command>)
    requires In(Awake, c)
    ensures Take(cfg, c, batch) == HandleAll(cfg, c, [], batch)
  {
  }

  lemma IdleTaken(cfg: Config, c: Talk, batch: seq<R.Command>)
    requires In(Awake, c) && batch != [] && batch[0].name == IDLE && !HasDone(batch[1..])
    ensures HandleAll(cfg, c, [], batch) == c.(idle := Some(Waiting(batch[0].tag, batch[1..], [])))
    ensures Alone(cfg, c, batch) == c.(idle := Some(Waiting(batch[0].tag, [], [])))
  {
    hide Take, HasDone;
    OneAlone(cfg, c, batch[0]);
    DroppedAlone(cfg, Take(cfg, c, [batch[0]]), batch[1..]);
  }

  /** What an IDLE alone leaves behind. */
  predicate Plainly(c: Talk) {
    c.idle.Some? ==> c.idle.value.behind == [] && c.idle.value.unsent == []
  }

  lemma DoneTaken(cfg: Config, c: Talk)
    requires !c.over && c.idle.Some? && Plainly(c)
    ensures forall cmds | HasDone(cmds) :: Take(cfg, c, cmds) == c.(idle := None, replies := c.replies + [Terminated(c.idle.value.tag)])
  {
    hide Terminated;
    var done := [Terminated(c.idle.value.tag)];
    assert [] + done == done;
    assert HandleAll(cfg, c.(idle := None), done, []) == c.(idle := None, replies := c.replies + done);
  }

  lemma IdleStep(cfg: Config, m: Mode, c: Talk, a: Talk, batch: seq<R.Command>)
    requires m.Dozing? && In(m, c) && Alike(c, a) && Plainly(a) && PoliteBatch(m, batch)
    ensures Alike(Take(cfg, c, batch), Alone(cfg, a, batch)) && In(Then(m, batch), Take(cfg, c, batch)) && Plainly(Alone(cfg, a, batch))
  {
    hide Terminated, Alone;
    if HasDone(batch) {
      var junk, last := batch[..|batch| - 1], batch[|batch| - 1];
      assert batch == junk + [last];
      AloneAppend(cfg, a, junk, [last]);
      DroppedAlone(cfg, a, junk);
      assert HasDone([last]) by { assert [last][0].name == DONE; }
      DoneTaken(cfg, c);
      DoneTaken(cfg, a);
      JustOne(cfg, a, last);
    } else {
      DroppedAlone(cfg, a, batch);
    }
  }

  lemma JustOne(cfg: Config, a: Talk, cmd: R.Command)
    ensures Alone(cfg, a, [cmd]) == Take(cfg, a, [cmd])
  {
    hide Take;
    assert [cmd][1..] == [];
    assert Alone(cfg, Take(cfg, a, [cmd]), []) == Take(cfg, a, [cmd]);
  }

  /** Nothing but the IDLE under way tells two like dialogues apart, and while awake nothing does. */
  lemma SameAwake(m: Mode, c: Talk, a: Talk)
    requires In(m, c) && Alike(c, a) && m.Awake?
    ensures c == a
  {
  }

  lemma PoliteStep(cfg: Config, m: Mode, c: Talk, a: Talk, batch: seq<R.Command>)
    requires In(m, c) && Alike(c, a) && Plainly(a) && PoliteBatch(m, batch)
    ensures Alike(Take(cfg, c, batch), Alone(cfg, a, batch)) && In(Then(m, batch), Take(cfg, c, batch)) && Plainly(Alone(cfg, a, batch))
  {
    hide Alone, HandleAll, HasDone, StopOf;
    match m
    case Gone => OverAlone(cfg, a, batch);
    case Awake =>
      SameAwake(m, c, a);
      AwakeStep(cfg, c, batch);
    case Dozing(_) => IdleStep(cfg, m, c, a, batch);
  }

  /** Polite reads do what their commands do one at a time. */
  lemma {:induction false} PoliteReads(cfg: Config, m: Mode, c: Talk, a: Talk, bs: seq<seq<R.Command>>)
    requires In(m, c) && Alike(c, a) && Plainly(a) && Polite(m, bs)
    ensures Alike(TakeAll(cfg, c, bs), Alone(cfg, a, Flat(bs))) && In(ThenAll(m, bs), TakeAll(cfg, c, bs))
    ensures Plainly(Alone(cfg, a, Flat(bs)))
    decreases |bs|
  {
    hide Take, Alike, In, Plainly, PoliteBatch, Then;
    if bs == [] {
      assert Alone(cfg, a, []) == a;
    } else {
      PoliteStep(cfg, m, c, a, bs[0]);
      PoliteReads(cfg, Then(m, bs[0]), Take(cfg, c, bs[0]), Alone(cfg, a, bs[0]), bs[1..]);
      AloneAppend(cfg, a, bs[0], Flat(bs[1..]));
    }
  }

  // --------------------------------------------------------- what is held back

  /** Commands that would make no difference. */
  predicate Idly(m: Mode, cmds: seq<R.Command>) {
    match m
    case Gone => true
    case Awake => cmds == []
    case Dozing(_) => !HasDone(cmds)
  }

  /** More commands, more replies. */
  lemma {:induction false} MoreReplies(cfg: Config, c: Talk, cmds: seq<R.Command>)
    requires Plainly(c)
    ensures |Alone(cfg, c, cmds).replies| >= |c.replies| && Plainly(Alone(cfg, c, cmds))
    decreases |cmds|
  {
    hide Handle;
    if cmds != [] && !c.over {
      if c.idle.None? {
        OneAlone(cfg, c, cmds[0]);
      } else {
        DoneTaken(cfg, c);
      }
      hide Take, HandleAll;
      MoreReplies(cfg, Take(cfg, c, [cmds[0]]), cmds[1..]);
    } else if c.over {
      OverAlone(cfg, c, cmds);
    }
  }

  lemma {:induction false} DoneAnswered(cfg: Config, c: Talk, cmds: seq<R.Command>)
    requires !c.over && c.idle.Some? && Plainly(c) && HasDone(cmds)
    ensures |Alone(cfg, c, cmds).replies| > |c.replies|
    decreases |cmds|
  {
    hide Terminated, HandleAll;
    var c' := Take(cfg, c, [cmds[0]]);
    if cmds[0].name == DONE {
      DoneTaken(cfg, c);
      assert [cmds[0]][0].name == DONE;
      MoreReplies(cfg, c', cmds[1..]);
    } else {
      var i :| 0 <= i < |cmds| && cmds[i].name == DONE;
      assert cmds[1..][i - 1].name == DONE;
      DoneAnswered(cfg, c, cmds[1..]);
    }
  }

  /** Commands make no difference exactly when they are idle ones. */
  lemma DifferenceExactly(cfg: Config, m: Mode, a: Talk, cmds: seq<R.Command>)
    requires Plainly(a) && (match m case Gone => a.over case Awake => !a.over && a.idle.None? case Dozing(_) => !a.over && a.idle.Some?)
    ensures Alike(Alone(cfg, a, cmds), a) <==> Idly(m, cmds)
  {
    hide Handle, Take, HandleAll, HasDone;
    match m
    case Gone => OverAlone(cfg, a, cmds);
    case Dozing(_) =>
      if HasDone(cmds) { DoneAnswered(cfg, a, cmds); } else { DroppedAlone(cfg, a, cmds); }
    case Awake =>
      if cmds != [] {
        OneAlone(cfg, a, cmds[0]);
        MoreReplies(cfg, Take(cfg, a, [cmds[0]]), cmds[1..]);
        if cmds[0].name == IDLE && HasDone(cmds[1..]) {
          DoneAnswered(cfg, Take(cfg, a, [cmds[0]]), cmds[1..]);
        } else if cmds[0].name == IDLE {
          DroppedAlone(cfg, Take(cfg, a, [cmds[0]]), cmds[1..]);
        }
      }
  }

  /** The service under a given cutting, exactly. Reads that do not mix an IDLE with the commands around it do what the
      stream's commands do one at a time, if and only if nothing that matters is held back behind a literal's marker
      when the stream ends. */
  lemma CuttingExactly(cfg: Config, db: Db, chunks: seq<Bytes>, stream: Bytes)
    requires Cuts(chunks, stream) && Parses(stream) && Polite(Awake, Batches(R.START, chunks))
    ensures Alike(ReadAll(cfg, Opened(db), chunks).talk, Alone(cfg, Opened(db).talk, Commands(stream)))
            <==> Idly(ThenAll(Awake, Batches(R.START, chunks)), Held(R.START, chunks))
  {
    hide R.FeedAll, R.Concat, Parses, Commands, Batches, Held, Flat, Polite, ReadAll, TakeAll, Alone, Idly, ThenAll;
    var c := Opened(db);
    var bs, held := Batches(R.START, chunks), Held(R.START, chunks);
    CutCommands(chunks, stream);
    ReadsAreBatches(cfg, c, chunks);
    PoliteReads(cfg, Awake, c.talk, c.talk, bs);
    AloneAppend(cfg, c.talk, Flat(bs), held);
    DifferenceExactly(cfg, ThenAll(Awake, bs), Alone(cfg, c.talk, Flat(bs)), held);
  }

  /** Two cuttings of one stream into polite reads that leave nothing held back: the same replies, in the same order, the
      same session and the same store. */
  lemma ServiceIndependent(cfg: Config, db: Db, xs: seq<Bytes>, ys: seq<Bytes>, stream: Bytes)
    requires Cuts(xs, stream) && Cuts(ys, stream) && Parses(stream)
    requires Polite(Awake, Batches(R.START, xs)) && Idly(ThenAll(Awake, Batches(R.START, xs)), Held(R.START, xs))
    requires Polite(Awake, Batches(R.START, ys))
    ensures Alike(ReadAll(cfg, Opened(db), xs).talk, ReadAll(cfg, Opened(db), ys).talk)
            <==> Idly(ThenAll(Awake, Batches(R.START, ys)), Held(R.START, ys))
  {
    hide R.Concat, Parses, Commands, Batches, Held, Polite, ReadAll, Alone, Idly, ThenAll, Opened, Cuts;
    CuttingExactly(cfg, db, xs, stream);
    CuttingExactly(cfg, db, ys, stream);
  }

  // ---------------------------------------------------------- every cutting

  /** One read of a buffer that grows: a feed that waited goes on, a feed that paused does not. */
  lemma {:induction false} FeedMore(r: R.Reader, d: Bytes)
    ensures var fed := R.FeedLoop(r);
            && (fed.ending.Quiet? ==> R.FeedLoop(R.More(r, d)) == R.Then(fed.commands, R.FeedLoop(R.More(fed.reader, d))))
            && (fed.ending.Paused? ==> R.FeedLoop(R.More(r, d)).commands == fed.commands)
    decreases |r.buf|, R.Lit(r)
  {
    hide R.NextTurn;
    R.TurnDescends(r);
    R.TurnDescends(R.More(r, d));
    R.TurnWithMore(r, d);
    match R.NextTurn(r)
    case Continue(r') => FeedMore(r', d);
    case Emit(r', c) =>
      FeedMore(r', d);
      R.ThenLaws(c, R.FeedLoop(r').commands, [], R.FeedLoop(R.More(R.FeedLoop(r').reader, d)));
    case Wait(r') =>
      SameTurnSameFeed(R.More(r, d), R.More(r', d));
      R.ThenLaws(R.Command("", "", []), [], [], R.FeedLoop(R.More(r', d)));
    case _ =>
  }

  lemma SameTurnSameFeed(r: R.Reader, q: R.Reader)
    requires R.NextTurn(r) == R.NextTurn(q)
    ensures R.FeedLoop(r) == R.FeedLoop(q)
  {
  }

  lemma NothingNew(r: R.Reader)
    requires R.FeedLoop(r).ending.Quiet?
    ensures R.FeedLoop(R.More(R.FeedLoop(r).reader, [])).commands == []
  {
    hide R.FeedLoop, R.Drain;
    var q := R.FeedLoop(r).reader;
    assert R.More(q, []) == q;
    R.FeedThenDrain(r);
    R.FeedThenDrain(q);
  }

  /** However a stream is cut, the reads return at least what one read of it all returns. */
  lemma {:induction false} OneReadReturnsLeast(r: R.Reader, chunks: seq<Bytes>)
    requires chunks != [] && R.FeedAll(r, chunks).ending.Quiet?
    ensures R.Feed(r, R.Concat(chunks)).commands <= Flat(Batches(r, chunks))
    decreases |chunks|
  {
    hide R.FeedLoop;
    var d, rest := chunks[0], R.Concat(chunks[1..]);
    var fed := R.Feed(r, d);
    var bs := Batches(r, chunks);
    assert bs[0] == fed.commands && bs[1..] == Batches(fed.reader, chunks[1..]);
    assert R.More(r, R.Concat(chunks)) == R.More(R.More(r, d), rest);
    FeedMore(R.More(r, d), rest);
    if fed.ending.Quiet? {
      if chunks[1..] == [] {
        NothingNew(R.More(r, d));
      } else {
        OneReadReturnsLeast(fed.reader, chunks[1..]);
      }
    }
  }

  lemma DoneIn(xs: seq<R.Command>, ys: seq<R.Command>)
    ensures HasDone(xs + ys) <==> HasDone(xs) || HasDone(ys)
  {
    var all := xs + ys;
    if HasDone(xs) {
      var i :| 0 <= i < |xs| && xs[i].name == DONE;
      assert all[i].name == DONE;
    }
    if HasDone(ys) {
      var i :| 0 <= i < |ys| && ys[i].name == DONE;
      assert all[|xs| + i].name == DONE;
    }
  }

  lemma {:induction false} GonePolite(bs: seq<seq<R.Command>>)
    ensures Polite(Gone, bs) && ThenAll(Gone, bs) == Gone
  {
    if bs != [] { GonePolite(bs[1..]); }
  }

  lemma {:induction false} DozingPolite(clear: bool, bs: seq<seq<R.Command>>)
    requires !HasDone(Flat(bs))
    ensures Polite(Dozing(clear), bs) && ThenAll(Dozing(clear), bs) == Dozing(clear)
  {
    hide HasDone;
    if bs != [] {
      DoneIn(bs[0], Flat(bs[1..]));
      DozingPolite(clear, bs[1..]);
    }
  }

  /** Commands among which no IDLE comes after another command or before a DONE, except after a LOGOUT. */
  predicate Straight(cmds: seq<R.Command>) {
    StopOf(cmds).Idles? ==> StopOf(cmds).ahead == 0 && !HasDone(cmds)
  }

  lemma {:induction false} StraightPolite(bs: seq<seq<R.Command>>)
    requires Straight(Flat(bs))
    ensures Polite(Awake, bs)
    ensures match StopOf(Flat(bs))
            case Runs => ThenAll(Awake, bs) == Awake
            case Leaves => ThenAll(Awake, bs) == Gone
            case Idles(_, _) => ThenAll(Awake, bs).Dozing?
  {
    hide HasDone;
    if bs != [] {
      var b, rest := bs[0], Flat(bs[1..]);
      StopOfAppend(b, rest);
      DoneIn(b, rest);
      match StopOf(b)
      case Runs =>
        if StopOf(rest).Idles? { assert StopOf(rest).ahead == 0; }
        StraightPolite(bs[1..]);
      case Leaves => GonePolite(bs[1..]);
      case Idles(_, _) =>
        IdleFirst(b);
        assert [b[0]] + b[1..] == b;
        DoneIn([b[0]], b[1..]);
        DozingPolite(StopOf(b).behind == [], bs[1..]);
    }
  }

  /** The stream's cutting does not show: one read of it all returns every command, none being behind a literal's marker,
      and no IDLE comes after another command or before a DONE; what follows a LOGOUT does not matter. */
  predicate Seamless(stream: Bytes) {
    var first := R.Feed(R.START, stream).commands;
    match StopOf(first)
    case Leaves => true
    case Runs => first == Commands(stream)
    case Idles(n, _) => n == 0 && !HasDone(Commands(stream))
  }

  lemma SeamlessPolite(chunks: seq<Bytes>, stream: Bytes)
    requires Cuts(chunks, stream) && stream != [] && Parses(stream) && Seamless(stream)
    ensures var bs := Batches(R.START, chunks); Polite(Awake, bs) && Idly(ThenAll(Awake, bs), Held(R.START, chunks))
  {
    hide R.Feed, Parses, Commands, Batches, Held, Flat, Polite, ThenAll, StopOf, HasDone, R.FeedAll;
    CutCommands(chunks, stream);
    OneReadReturnsLeast(R.START, chunks);
    var first, bs, held := R.Feed(R.START, stream).commands, Batches(R.START, chunks), Held(R.START, chunks);
    var rest := Flat(bs)[|first|..];
    assert Flat(bs) == first + rest;
    StopOfAppend(first, rest);
    DoneIn(Flat(bs), held);
    if StopOf(first).Runs? {
      assert |first| == |Flat(bs)| + |held|;
      assert rest == [] && held == [] && first + [] == first;
    }
    StraightPolite(bs);
  }

  /** Of a seamless stream every cutting is the commands, one at a time. */
  lemma SeamlessReads(cfg: Config, db: Db, chunks: seq<Bytes>, stream: Bytes)
    requires Cuts(chunks, stream) && stream != [] && Parses(stream) && Seamless(stream)
    ensures Alike(ReadAll(cfg, Opened(db), chunks).talk, Alone(cfg, Opened(db).talk, Commands(stream)))
  {
    hide R.Concat, Parses, Commands, Batches, Held, Polite, ReadAll, Alone, Idly, ThenAll, Opened, Cuts, Seamless;
    SeamlessPolite(chunks, stream);
    CuttingExactly(cfg, db, chunks, stream);
  }

  // ------------------------------------------------------------ byte by byte

  function Bytewise(b: Bytes): seq<Bytes> {
    if b == [] then [] else [[b[0]]] + Bytewise(b[1..])
  }

  lemma {:induction false} BytewiseCuts(b: Bytes)
    ensures Cuts(Bytewise(b), b)
  {
    if b != [] {
      BytewiseCuts(b[1..]);
      var xs := Bytewise(b);
      assert xs[1..] == Bytewise(b[1..]) && [b[0]] + b[1..] == b;
      forall i | 0 <= i < |xs| ensures 0 < |xs[i]| <= READ_SIZE {
        if i > 0 { assert xs[i] == Bytewise(b[1..])[i - 1]; }
      }
    }
  }

  /** A reader that has nothing to go on with. */
  predicate Rested(r: R.Reader) {
    if r.literal.Some? then r.buf == [] else LF !in r.buf
  }

  lemma RestedHoldsNothing(r: R.Reader)
    requires Rested(r)
    ensures R.Settle(r).commands == [] && R.FeedLoop(r).commands == [] && R.FeedLoop(r).ending.Quiet?
  {
    hide R.EndLine;
    if r.literal == Some(0) {
      assert r.buf[..0] == [] && r.buf[0..] == [];
      var q := R.Reader([], r.pending + r.buf[..0], None);
      assert R.NextTurn(r) == R.Continue(q) && R.NextTurn(q) == R.Wait(q);
      assert R.FeedLoop(q) == R.Ran([], q, R.Quiet) && R.FeedLoop(r) == R.FeedLoop(q);
    } else if r.literal.None? {
      assert R.NextTurn(r) == R.Wait(r);
    }
  }

  lemma LineByte(r: R.Reader, x: Byte)
    requires r.literal.None? && LF !in r.buf
    ensures var t := R.NextTurn(R.More(r, [x]));
            (t.Wait? || t.Emit? || t.Pause? || t.Fail? || t.Hang?) && (t.Emit? ==> t.reader == R.START) && (t.Wait? || t.Pause? ==> Rested(t.reader))
  {
    hide R.EndLine;
    var b := r.buf + [x];
    assert forall i | 0 <= i < |r.buf| :: b[i] == r.buf[i];
    if x == LF {
      FindIs(b, LF, |r.buf|);
      var line := b[..if |r.buf| > 0 then |r.buf| - 1 else 0];
      assert b[|r.buf| + 1..] == [];
      EndRests(R.More(r, [x]), line);
      assert R.NextTurn(R.More(r, [x])) == R.EndLine(R.More(r, [x]), line, []) || R.NextTurn(R.More(r, [x])).Fail?;
    } else {
      assert LF !in b;
    }
  }

  lemma EndRests(r: R.Reader, line: Bytes)
    ensures var t := R.EndLine(r, line, []);
            (t.Emit? || t.Pause? || t.Fail? || t.Hang?) && (t.Emit? ==> t.reader == R.START) && (t.Pause? ==> Rested(t.reader))
  {
    hide R.LiteralCount, R.ParseLine;
  }

  lemma FeedOne(r: R.Reader)
    requires var t := R.NextTurn(r);
             (t.Wait? || t.Emit? || t.Pause? || t.Fail? || t.Hang?) && (t.Emit? ==> t.reader == R.START) && (t.Wait? || t.Pause? ==> Rested(t.reader))
    ensures var fed := R.FeedLoop(r); |fed.commands| <= 1 && (fed.ending.Quiet? || fed.ending.Paused? ==> Rested(fed.reader))
  {
    hide R.NextTurn;
    R.NothingToRead();
  }

  /** A byte at a time there is at most one command a read, and nothing is held back. */
  lemma OneByteFeed(r: R.Reader, x: Byte)
    requires Rested(r)
    ensures var fed := R.Feed(r, [x]); |fed.commands| <= 1 && (fed.ending.Quiet? || fed.ending.Paused? ==> Rested(fed.reader))
  {
    var m := R.More(r, [x]);
    if r.literal.None? {
      LineByte(r, x);
      FeedOne(m);
    } else {
      assert m.buf == [x];
      var n := r.literal.value;
      if n == 0 {
        var q := R.Reader([], r.pending + [x][..0], None);
        assert [x][0..] == [] + [x];
        assert R.NextTurn(m) == R.Continue(R.More(q, [x]));
        LineByte(q, x);
        FeedOne(R.More(q, [x]));
      } else if n == 1 {
        var q := R.Reader([x][1..], r.pending + [x][..1], None);
        assert R.NextTurn(m) == R.Continue(q);
        RestedHoldsNothing(q);
        assert R.NextTurn(q) == R.Wait(q);
      }
    }
  }

  predicate Small(bs: seq<seq<R.Command>>) {
    forall i | 0 <= i < |bs| :: |bs[i]| <= 1
  }

  lemma {:induction false} BytewiseSmall(r: R.Reader, b: Bytes)
    requires Rested(r) && R.FeedAll(r, Bytewise(b)).ending.Quiet?
    ensures Small(Batches(r, Bytewise(b))) && Held(r, Bytewise(b)) == []
    decreases |b|
  {
    hide R.Feed, R.Settle, Rested;
    if b == [] {
      RestedHoldsNothing(r);
    } else {
      OneByteFeed(r, b[0]);
      var xs, fed := Bytewise(b), R.Feed(r, [b[0]]);
      assert xs[0] == [b[0]] && xs[1..] == Bytewise(b[1..]);
      BytewiseSmall(fed.reader, b[1..]);
    }
  }

  lemma {:induction false} SmallPolite(m: Mode, bs: seq<seq<R.Command>>)
    requires Small(bs) && (m.Dozing? ==> m.clear)
    ensures Polite(m, bs)
    decreases |bs|
  {
    if bs != [] {
      var b := bs[0];
      assert |b| <= 1;
      assert |b| == 1 ==> b[1..] == [] && b[..0] == [];
      assert StopOf([]).Runs?;
      assert PoliteBatch(m, b);
      SmallPolite(Then(m, b), bs[1..]);
    }
  }

  /** Byte by byte, a stream is its commands one at a time. */
  lemma BytewiseReads(cfg: Config, db: Db, stream: Bytes)
    requires Parses(stream)
    ensures Alike(ReadAll(cfg, Opened(db), Bytewise(stream)).talk, Alone(cfg, Opened(db).talk, Commands(stream)))
  {
    hide R.Concat, Parses, Commands, Batches, Polite, ReadAll, Alone, ThenAll, Opened, Cuts, R.FeedAll, Bytewise, Held, Small;
    var xs := Bytewise(stream);
    BytewiseCuts(stream);
    CutCommands(xs, stream);
    BytewiseSmall(R.START, stream);
    SmallPolite(Awake, Batches(R.START, xs));
    CuttingExactly(cfg, db, xs, stream);
  }

  // ---------------------------------------------------------------- in one read

  lemma {:induction false} Withheld(cfg: Config, c: Talk, out: seq<string>, cmds: seq<R.Command>)
    requires StopOf(cmds).Idles?
    ensures HandleAll(cfg, c, out, cmds).replies == c.replies
    decreases |cmds|
  {
    hide Handle;
    if cmds[0].name != IDLE {
      var t := Handle(cfg, c.db, c.session, cmds[0]);
      Withheld(cfg, c.(session := t.session, db := t.db), out + [t.reply], cmds[1..]);
    }
  }

  lemma OneReadBatches(stream: Bytes)
    ensures Batches(R.START, [stream]) == [R.Feed(R.START, stream).commands]
    ensures Flat([R.Feed(R.START, stream).commands]) == R.Feed(R.START, stream).commands
  {
    hide R.Feed;
    var xs := [stream];
    assert xs[1..] == [];
    assert Batches(R.Feed(R.START, stream).reader, []) == [];
  }

  lemma OneReadCuts(stream: Bytes)
    requires 0 < |stream| <= READ_SIZE
    ensures Cuts([stream], stream)
  {
    assert [stream][1..] == [] && R.Concat([]) == [] && stream + [] == stream;
  }

  lemma OneRuns(batch: seq<R.Command>)
    requires StopOf(batch).Runs?
    ensures Polite(Awake, [batch]) && ThenAll(Awake, [batch]) == Awake
  {
    hide StopOf;
    var bs := [batch];
    assert bs[1..] == [] && bs[0] == batch;
    assert Then(Awake, batch) == Awake && PoliteBatch(Awake, batch);
    assert Polite(Awake, bs[1..]) && ThenAll(Awake, bs[1..]) == Awake;
  }

  /** Of a stream that is not seamless, one read of it all is not its commands one at a time. */
  lemma OneReadDiffers(cfg: Config, db: Db, stream: Bytes)
    requires 0 < |stream| <= READ_SIZE && Parses(stream) && !Seamless(stream)
    ensures !Alike(ReadAll(cfg, Opened(db), [stream]).talk, Alone(cfg, Opened(db).talk, Commands(stream)))
  {
    hide R.Feed, R.FeedAll, R.Concat, Parses, Commands, ReadAll, Alone, Held, HandleAll, HasDone, Batches;
    var first, c, xs := R.Feed(R.START, stream).commands, Opened(db).talk, [stream];
    OneReadCuts(stream);
    OneReadBatches(stream);
    CutCommands(xs, stream);
    var held := Held(R.START, xs);
    if StopOf(first).Runs? {
      assert held != [] by { assert first + [] == first; }
      OneRuns(first);
      CuttingExactly(cfg, db, xs, stream);
    } else {
      ReadsAreBatches(cfg, Opened(db), xs);
      assert TakeAll(cfg, c, [first]) == Take(cfg, c, first) by { OneTaken(cfg, c, first); }
      TakeAwake(cfg, c, first);
      Withheld(cfg, c, [], first);
      AnsweredAlone(cfg, c, first, held);
    }
  }

  lemma OneTaken(cfg: Config, c: Talk, batch: seq<R.Command>)
    ensures TakeAll(cfg, c, [batch]) == Take(cfg, c, batch)
  {
    hide Take;
    assert [batch][1..] == [];
    assert TakeAll(cfg, Take(cfg, c, batch), []) == Take(cfg, c, batch);
  }

  /** Taken one at a time, commands with another before an IDLE or a DONE after it are answered. */
  lemma AnsweredAlone(cfg: Config, c: Talk, first: seq<R.Command>, held: seq<R.Command>)
    requires In(Awake, c) && StopOf(first).Idles? && (StopOf(first).ahead > 0 || HasDone(first + held))
    ensures |Alone(cfg, c, first + held).replies| > |c.replies|
  {
    hide Handle, Take;
    var all := first + held;
    OneAlone(cfg, c, all[0]);
    var c' := Take(cfg, c, [all[0]]);
    if all[0].name == IDLE {
      assert [all[0]] + all[1..] == all;
      DoneIn([all[0]], all[1..]);
      DoneAnswered(cfg, c', all[1..]);
    } else {
      MoreReplies(cfg, c', all[1..]);
    }
  }

  /** Exactly when the cutting does not show. Of a stream that parses and fits one read, all cuttings give the same
      replies, session and store, if and only if the stream is seamless. */
  lemma SeamlessExactly(cfg: Config, db: Db, stream: Bytes)
    requires 0 < |stream| <= READ_SIZE && Parses(stream)
    ensures (forall xs, ys | Cuts(xs, stream) && Cuts(ys, stream) ::
               Alike(ReadAll(cfg, Opened(db), xs).talk, ReadAll(cfg, Opened(db), ys).talk))
            <==> Seamless(stream)
  {
    hide R.Concat, Parses, Commands, ReadAll, Alone, Opened, Cuts, Seamless, Bytewise;
    if Seamless(stream) {
      forall xs, ys | Cuts(xs, stream) && Cuts(ys, stream)
        ensures Alike(ReadAll(cfg, Opened(db), xs).talk, ReadAll(cfg, Opened(db), ys).talk)
      {
        SeamlessReads(cfg, db, xs, stream);
        SeamlessReads(cfg, db, ys, stream);
      }
    } else {
      OneReadCuts(stream);
      BytewiseCuts(stream);
      BytewiseReads(cfg, db, stream);
      OneReadDiffers(cfg, db, stream);
    }
  }
}
