/** The webhook channel: rate limit, replay check, first-in first-out inbox, and the hand-over of
    temporary attachment files between the records that carry a message. What the parser makes
    of a body is a parameter; the file of an attachment is named after the id its sender gave it, so a
    path can come up again. */
module WebhookInbox {
  import opened RateLimit
  import opened SeenWindow
  import opened Text

  datatype Message = Message(
    messageId: string, channelName: string, conversationId: string, threadId: string, senderId: string,
    text: string, attachmentType: string, attachmentName: string)

  /** A message record with its attachment; `temporary` makes it the owner of the file. */
  datatype Inbound = Inbound(message: Message, path: string, temporary: bool)

  /** What the parser makes of a body: refused before anything is stored; refused for want of a text,
      its attachment already stored; or a message, with an attachment to store if it is temporary. */
  datatype Body =
    | Refused
    | Textless(path: string)
    | Parsed(nonce: string, timestamp: int, inbound: Inbound)

  datatype Options = Options(rateLimit: nat, replayWindow: nat)

  /** The channel's own state. */
  datatype Channel = Channel(limiter: Limiter, nonces: seq<string>, inbox: seq<Inbound>)

  /** The temporary files on disk, and every path ever passed to `unlink`. */
  datatype Disk = Disk(files: set<string>, unlinked: seq<string>)

  // ---- Single operations -----------------------------------------------------------------------

  function Unlink(d: Disk, path: string): Disk {
    Disk(d.files - {path}, d.unlinked + [path])
  }

  /** Clearing a record unlinks the file it owns. */
  function Clear(d: Disk, r: Inbound): Disk {
    if r.temporary then Unlink(d, r.path) else d
  }

  function ClearAll(d: Disk, rs: seq<Inbound>): Disk
    decreases |rs|
  {
    if rs == [] then d else Clear(ClearAll(d, rs[..|rs| - 1]), rs[|rs| - 1])
  }

  predicate Stale(o: Options, timestamp: int, now: int) {
    timestamp > 0 && (timestamp > now + o.replayWindow || timestamp < now - o.replayWindow)
  }

  predicate Replayed(o: Options, c: Channel, b: Body, now: int)
    requires b.Parsed?
  {
    Stale(o, b.timestamp, now) || Seen(c.nonces, b.nonce)
  }

  /** The path under which a body's attachment is stored. */
  function AttachmentPath(b: Body): Option<string> {
    match b
    case Refused => None
    case Textless(path) => Some(path)
    case Parsed(_, _, r) => if r.temporary then Some(r.path) else None
  }

  /** The parser's part: the attachment is created, and must not exist yet. */
  predicate CanStore(d: Disk, b: Body) {
    AttachmentPath(b).Some? ==> AttachmentPath(b).value !in d.files
  }

  function Stored(d: Disk, b: Body): Disk {
    if AttachmentPath(b).Some? then d.(files := d.files + {AttachmentPath(b).value}) else d
  }

  datatype Ingested = Ingested(channel: Channel, disk: Disk, accepted: bool)

  /** The limiter and the replay test each read the clock. */
  function Ingest(o: Options, c: Channel, d: Disk, b: Body, arrived: int, now: int): Ingested {
    var (limiter, pass) := Check(c.limiter, o.rateLimit, arrived);
    var limited := c.(limiter := limiter);
    if !pass || !CanStore(d, b) || b.Refused? then Ingested(limited, d, false)
    else if b.Textless? then Ingested(limited, Stored(d, b), false)
    else if Replayed(o, c, b, now) then Ingested(limited, Clear(Stored(d, b), b.inbound), false)
    else Ingested(Channel(limiter, Remember(c.nonces, b.nonce, MAX_NONCES), c.inbox + [b.inbound]), Stored(d, b), true)
  }

  // ---- The channel in place --------------------------------------------------------------------

  class FileSystem {
    var files: set<string>
    var unlinked: seq<string>

    function View(): Disk
      reads this
    {
      Disk(files, unlinked)
    }

    /** Exclusive creation: it fails when the file exists. */
    method Create(path: string) returns (ok: bool)
      modifies this
      ensures ok == (path !in old(files))
      ensures View() == if ok then old(View()).(files := old(files) + {path}) else old(View())
    {
      ok := path !in files;
      if ok {
        files := files + {path};
      }
    }

    method Remove(path: string)
      modifies this
      ensures View() == Unlink(old(View()), path)
    {
      files := files - {path};
      unlinked := unlinked + [path];
    }

    method ClearRecord(r: Inbound)
      modifies this
      ensures View() == Clear(old(View()), r)
    {
      if r.temporary {
        Remove(r.path);
      }
    }
  }

  class WebhookChannel {
    const options: Options
    const fs: FileSystem
    const limiter: MinuteLimiter
    const nonces: IdWindow
    var inbox: seq<Inbound>

    ghost predicate Valid()
      reads this, limiter, nonces
    {
      nonces.Valid() && nonces.max == MAX_NONCES && limiter.limit == options.rateLimit
    }

    function View(): Channel
      reads this, limiter, nonces
    {
      Channel(Limiter(limiter.window, limiter.count), nonces.ids, inbox)
    }

    constructor (options: Options, fs: FileSystem)
      ensures Valid() && View() == Channel(IDLE, [], [])
      ensures this.options == options && this.fs == fs && fresh(limiter) && fresh(nonces)
    {
      this.options, this.fs := options, fs;
      limiter := new MinuteLimiter(options.rateLimit);
      nonces := new IdWindow(MAX_NONCES);
      inbox := [];
    }

    method CheckReplay(nonce: string, timestamp: int, now: int) returns (denied: bool)
      ensures denied == (Stale(options, timestamp, now) || Seen(nonces.ids, nonce))
    {
      if timestamp > 0 {
        if timestamp > now + options.replayWindow || timestamp < now - options.replayWindow {
          return true;
        }
      }
      denied := nonces.IsSeen(nonce);
    }

    /** One request; a request past the rate limit is not parsed. */
    method Receive(b: Body, arrived: int, now: int) returns (accepted: bool)
      requires Valid()
      modifies this, limiter, nonces, fs
      ensures Valid()
      ensures Ingested(View(), fs.View(), accepted) == Ingest(options, old(View()), old(fs.View()), b, arrived, now)
    {
      var pass := limiter.Request(arrived);
      if !pass || b.Refused? {
        return false;
      }
      if b.Textless? {
        var _ := fs.Create(b.path);
        return false;
      }
      var inbound := b.inbound;
      if inbound.temporary {
        var stored := fs.Create(inbound.path);
        if !stored {
          return false;
        }
      }
      var denied := CheckReplay(b.nonce, b.timestamp, now);
      if !denied {
        var stored := inbound;
        inbox := inbox + [stored];
        inbound := inbound.(temporary := false);
        nonces.Add(b.nonce);
      }
      fs.ClearRecord(inbound);
      accepted := !denied;
    }

    /** Hands the oldest message over, with the ownership of its file. */
    method Listen() returns (out: seq<Inbound>)
      modifies this`inbox, fs
      ensures old(inbox) == [] ==> out == [] && inbox == []
      ensures old(inbox) != [] ==> out == [old(inbox)[0]] && inbox == old(inbox)[1..]
      ensures fs.View() == old(fs.View())
    {
      if inbox == [] {
        return [];
      }
      var stored := inbox[0];
      out := [stored];
      stored := stored.(temporary := false);
      fs.ClearRecord(stored);
      inbox := inbox[1..];
    }

    method Destroy()
      modifies this`inbox, fs
      ensures inbox == [] && fs.View() == ClearAll(old(fs.View()), old(inbox))
    {
      var i := 0;
      while i < |inbox|
        invariant i <= |inbox| && inbox == old(inbox)
        invariant fs.View() == ClearAll(old(fs.View()), inbox[..i])
      {
        fs.ClearRecord(inbox[i]);
        assert inbox[..i + 1][..i] == inbox[..i];
        i := i + 1;
      }
      assert inbox[..|inbox|] == inbox;
      inbox := [];
    }
  }

  // ---- Runs ------------------------------------------------------------------------------------

  /** A channel, its consumer's records not yet cleared, the disk, and the history of the run: the paths
      stored, those among them stored for a body that was then refused, the messages, the nonces. */
  datatype World = World(
    channel: Channel, held: seq<Inbound>, disk: Disk, destroyed: bool,
    created: seq<string>, orphans: seq<string>,
    accepted: seq<Message>, delivered: seq<Message>, nonces: seq<string>)

  datatype Step =
    | Receive(body: Body, arrived: int, now: int)
    | Listen
    | Release(at: nat)
    | Destroy

  const START: World := World(Channel(IDLE, [], []), [], Disk({}, []), false, [], [], [], [], [])

  predicate Allowed(w: World, step: Step) {
    match step
    case Receive(_, _, _) => !w.destroyed
    case Listen => !w.destroyed
    case Release(k) => k < |w.held|
    case Destroy => !w.destroyed
  }

  /** The request passes the limiter and its attachment, if any, can be stored. */
  predicate Opens(o: Options, w: World, step: Step)
    requires step.Receive?
  {
    Check(w.channel.limiter, o.rateLimit, step.arrived).1 && CanStore(w.disk, step.body)
  }

  function Next(o: Options, w: World, step: Step): World
    requires Allowed(w, step)
  {
    match step
    case Receive(b, arrived, now) =>
      var r := Ingest(o, w.channel, w.disk, b, arrived, now);
      var path := if Opens(o, w, step) then AttachmentPath(b) else None;
      w.(channel := r.channel, disk := r.disk,
         created := if path.Some? then w.created + [path.value] else w.created,
         orphans := if path.Some? && b.Textless? then w.orphans + [path.value] else w.orphans,
         accepted := if r.accepted then w.accepted + [b.inbound.message] else w.accepted,
         nonces := if r.accepted && b.nonce != [] then w.nonces + [b.nonce] else w.nonces)
    case Listen =>
      if w.channel.inbox == [] then w
      else
        var first := w.channel.inbox[0];
        w.(channel := w.channel.(inbox := w.channel.inbox[1..]), held := w.held + [first],
           delivered := w.delivered + [first.message])
    case Release(k) => w.(held := w.held[..k] + w.held[k + 1..], disk := Clear(w.disk, w.held[k]))
    case Destroy =>
      w.(channel := w.channel.(inbox := []), disk := ClearAll(w.disk, w.channel.inbox), destroyed := true)
  }

  ghost predicate IsRun(o: Options, run: seq<World>, steps: seq<Step>) {
    && |run| == |steps| + 1 && run[0] == START
    && forall i :: 0 <= i < |steps| ==> Allowed(run[i], steps[i]) && run[i + 1] == Next(o, run[i], steps[i])
  }

  /** The paths of the flagged records. */
  function Flagged(rs: seq<Inbound>): multiset<string>
    decreases |rs|
  {
    if rs == [] then multiset{}
    else Flagged(rs[..|rs| - 1]) + (if rs[|rs| - 1].temporary then multiset{rs[|rs| - 1].path} else multiset{})
  }

  function Texts(rs: seq<Inbound>): (r: seq<Message>)
    ensures |r| == |rs| && forall i :: 0 <= i < |r| ==> r[i] == rs[i].message
  {
    seq(|rs|, i requires 0 <= i < |rs| => rs[i].message)
  }

  function Owned(w: World): multiset<string> {
    Flagged(w.channel.inbox) + Flagged(w.held)
  }

  /** The paths of the files on disk: flagged by a record, or left behind by a refused body. */
  function Kept(w: World): multiset<string> {
    Owned(w) + multiset(w.orphans)
  }

  /** Every file ever stored is kept or was unlinked, and no path is kept twice; the files on disk are
      the kept ones. */
  ghost predicate Accounted(w: World) {
    && multiset(w.created) == Kept(w) + multiset(w.disk.unlinked)
    && (forall p :: Kept(w)[p] <= 1)
    && (forall p :: p in w.disk.files <==> p in Kept(w))
  }

  /** Messages leave the inbox in the order in which they entered it. */
  ghost predicate InOrder(w: World) {
    w.delivered <= w.accepted && (w.destroyed || w.accepted == w.delivered + Texts(w.channel.inbox))
  }

  /** The nonce window is the recent part of the accepted nonces. */
  ghost predicate NoncesRecent(w: World) {
    Faithful(Record(w.channel.nonces, w.nonces), MAX_NONCES)
  }

  lemma {:induction false} FlaggedConcat(a: seq<Inbound>, b: seq<Inbound>)
    ensures Flagged(a + b) == Flagged(a) + Flagged(b)
    decreases |b|
  {
    if b == [] {
      assert a + b == a;
    } else {
      assert (a + b)[..|a + b| - 1] == a + b[..|b| - 1];
      FlaggedConcat(a, b[..|b| - 1]);
    }
  }

  lemma FlaggedOne(r: Inbound)
    ensures Flagged([r]) == if r.temporary then multiset{r.path} else multiset{}
  {
    assert [r][..0] == [];
  }

  lemma FlaggedWithout(rs: seq<Inbound>, k: nat)
    requires k < |rs|
    ensures Flagged(rs) == Flagged(rs[..k] + rs[k + 1..]) + Flagged([rs[k]])
  {
    hide Flagged;
    assert rs == rs[..k] + ([rs[k]] + rs[k + 1..]);
    FlaggedConcat(rs[..k], [rs[k]] + rs[k + 1..]);
    FlaggedConcat([rs[k]], rs[k + 1..]);
    FlaggedConcat(rs[..k], rs[k + 1..]);
  }

  lemma {:induction false} ClearAllUnlinks(d: Disk, rs: seq<Inbound>)
    ensures multiset(ClearAll(d, rs).unlinked) == multiset(d.unlinked) + Flagged(rs)
    ensures forall p :: p in ClearAll(d, rs).files <==> p in d.files && p !in Flagged(rs)
    decreases |rs|
  {
    if rs != [] {
      ClearAllUnlinks(d, rs[..|rs| - 1]);
    }
  }

  /** One more file, kept by a record or left behind. */
  lemma StoredAccounted(w: World, v: World, path: string)
    requires Accounted(w) && path !in w.disk.files
    requires Kept(v) == Kept(w) + multiset{path} && v.created == w.created + [path]
    requires v.disk == Disk(w.disk.files + {path}, w.disk.unlinked)
    ensures Accounted(v)
  {
    hide Kept;
    assert path !in Kept(w);
  }

  /** A file stored and unlinked at once. */
  lemma DeniedAccounted(w: World, v: World, path: string)
    requires Accounted(w) && path !in w.disk.files
    requires Kept(v) == Kept(w) && v.created == w.created + [path]
    requires v.disk == Disk(w.disk.files, w.disk.unlinked + [path])
    ensures Accounted(v)
  {
    hide Kept;
  }

  lemma SameAccounted(w: World, v: World)
    requires Accounted(w) && Kept(v) == Kept(w) && v.created == w.created && v.disk == w.disk
    ensures Accounted(v)
  {
    hide Kept;
  }

  /** One kept file unlinked. */
  lemma UnlinkedAccounted(w: World, v: World, path: string)
    requires Accounted(w) && Kept(w) == Kept(v) + multiset{path} && v.created == w.created
    requires v.disk == Unlink(w.disk, path)
    ensures Accounted(v)
  {
    hide Kept;
    forall p
      ensures Kept(w)[p] == Kept(v)[p] + multiset{path}[p]
    {
    }
  }

  /** How a request changes the kept files. */
  lemma ReceiveKeeps(o: Options, w: World, b: Body, arrived: int, now: int)
    requires Allowed(w, Receive(b, arrived, now))
    ensures var v := Next(o, w, Receive(b, arrived, now));
            Kept(v) == if Opens(o, w, Receive(b, arrived, now)) && AttachmentPath(b).Some?
                          && (b.Textless? || !Replayed(o, w.channel, b, now))
                       then Kept(w) + multiset{AttachmentPath(b).value} else Kept(w)
  {
    hide Check, Remember, Replayed, Flagged, Stored, Clear;
    if b.Parsed? {
      FlaggedConcat(w.channel.inbox, [b.inbound]);
      FlaggedOne(b.inbound);
    }
  }

  lemma ReceiveAccounted(o: Options, w: World, b: Body, arrived: int, now: int)
    requires Accounted(w) && Allowed(w, Receive(b, arrived, now))
    ensures Accounted(Next(o, w, Receive(b, arrived, now)))
  {
    ReceiveKeeps(o, w, b, arrived, now);
    hide Check, Remember, Replayed, Accounted, Kept;
    var v := Next(o, w, Receive(b, arrived, now));
    if !Opens(o, w, Receive(b, arrived, now)) || AttachmentPath(b).None? {
      SameAccounted(w, v);
    } else if b.Textless? || !Replayed(o, w.channel, b, now) {
      StoredAccounted(w, v, AttachmentPath(b).value);
    } else {
      var path := AttachmentPath(b).value;
      assert w.disk.files + {path} - {path} == w.disk.files;
      DeniedAccounted(w, v, path);
    }
  }

  lemma ListenAccounted(o: Options, w: World)
    requires Accounted(w) && Allowed(w, Listen)
    ensures Accounted(Next(o, w, Listen))
  {
    hide Flagged, Ingest, Clear, ClearAll, Accounted;
    var v := Next(o, w, Listen);
    if w.channel.inbox != [] {
      var first := w.channel.inbox[0];
      FlaggedWithout(w.channel.inbox, 0);
      assert w.channel.inbox[..0] + w.channel.inbox[1..] == w.channel.inbox[1..];
      FlaggedConcat(w.held, [first]);
    }
    assert Kept(v) == Kept(w);
    SameAccounted(w, v);
  }

  lemma ReleaseAccounted(o: Options, w: World, k: nat)
    requires Accounted(w) && Allowed(w, Release(k))
    ensures Accounted(Next(o, w, Release(k)))
  {
    hide Flagged, Ingest, ClearAll, Accounted;
    var v := Next(o, w, Release(k));
    FlaggedWithout(w.held, k);
    FlaggedOne(w.held[k]);
    if w.held[k].temporary {
      assert Kept(w) == Kept(v) + multiset{w.held[k].path};
      UnlinkedAccounted(w, v, w.held[k].path);
    } else {
      assert Kept(w) == Kept(v);
      SameAccounted(w, v);
    }
  }

  lemma DestroyAccounted(o: Options, w: World)
    requires Accounted(w) && Allowed(w, Destroy)
    ensures Accounted(Next(o, w, Destroy))
  {
    hide Ingest, ClearAll;
    var v := Next(o, w, Destroy);
    ClearAllUnlinks(w.disk, w.channel.inbox);
    forall p
      ensures Kept(w)[p] == Kept(v)[p] + Flagged(w.channel.inbox)[p]
    {
    }
  }

  lemma StepAccounted(o: Options, w: World, step: Step)
    requires Accounted(w) && Allowed(w, step)
    ensures Accounted(Next(o, w, step))
  {
    hide Accounted, Ingest, ClearAll, Clear;
    match step
    case Receive(b, arrived, now) => ReceiveAccounted(o, w, b, arrived, now);
    case Listen => ListenAccounted(o, w);
    case Release(k) => ReleaseAccounted(o, w, k);
    case Destroy => DestroyAccounted(o, w);
  }

  /** A held record's file is on disk. */
  lemma HeldIsStored(w: World, k: nat)
    requires Accounted(w) && k < |w.held| && w.held[k].temporary
    ensures w.held[k].path in w.disk.files
  {
    hide Flagged;
    FlaggedWithout(w.held, k);
    FlaggedOne(w.held[k]);
    assert Kept(w)[w.held[k].path] >= 1;
  }

  lemma TextsEnds(rs: seq<Inbound>, r: Inbound)
    ensures Texts(rs + [r]) == Texts(rs) + [r.message] && Texts([r] + rs) == [r.message] + Texts(rs)
  {
  }

  lemma ReceiveInOrder(o: Options, w: World, b: Body, arrived: int, now: int)
    requires InOrder(w) && Allowed(w, Receive(b, arrived, now))
    ensures InOrder(Next(o, w, Receive(b, arrived, now)))
  {
    hide Check, Replayed, Remember, Stored, Clear, ClearAll, Texts, CanStore, AttachmentPath, Opens;
    if b.Parsed? {
      TextsEnds(w.channel.inbox, b.inbound);
    }
  }

  lemma StepInOrder(o: Options, w: World, step: Step)
    requires InOrder(w) && Allowed(w, step)
    ensures InOrder(Next(o, w, step))
  {
    hide Ingest, Stored, Clear, ClearAll, Texts, AttachmentPath, Opens;
    var inbox := w.channel.inbox;
    match step
    case Receive(b, arrived, now) => ReceiveInOrder(o, w, b, arrived, now);
    case Listen =>
      if inbox != [] {
        assert inbox == [inbox[0]] + inbox[1..];
        TextsEnds(inbox[1..], inbox[0]);
      }
    case _ =>
  }

  lemma StepNoncesRecent(o: Options, w: World, step: Step)
    requires NoncesRecent(w) && Allowed(w, step)
    ensures NoncesRecent(Next(o, w, step))
  {
    hide Check, Stale, Stored, CanStore, Clear, ClearAll, Faithful;
    if step.Receive? && step.body.Parsed? && !Seen(w.channel.nonces, step.body.nonce) {
      OfferKeepsFaithful(Record(w.channel.nonces, w.nonces), step.body.nonce, MAX_NONCES);
    }
  }

  /** What every state of every run satisfies. */
  lemma {:induction false} RunInvariant(o: Options, run: seq<World>, steps: seq<Step>, i: nat)
    requires IsRun(o, run, steps) && i < |run|
    ensures Accounted(run[i]) && InOrder(run[i]) && NoncesRecent(run[i])
  {
    if i == 0 {
      assert Texts([]) == [];
    } else {
      RunInvariant(o, run, steps, i - 1);
      StepAccounted(o, run[i - 1], steps[i - 1]);
      StepInOrder(o, run[i - 1], steps[i - 1]);
      StepNoncesRecent(o, run[i - 1], steps[i - 1]);
    }
  }

  /** In every state of every run, a path is flagged by at most one record, and then it is on disk; each
      time it was stored, its file is still there or was unlinked, once. A file without an owner was
      left behind by a refused body. */
  lemma OneOwnerOrUnlinkedOnce(o: Options, run: seq<World>, steps: seq<Step>, i: nat, path: string)
    requires IsRun(o, run, steps) && i < |run|
    ensures var w := run[i];
            && Owned(w)[path] + multiset(w.orphans)[path] <= 1
            && (path in w.disk.files <==> Owned(w)[path] + multiset(w.orphans)[path] == 1)
            && multiset(w.created)[path]
               == Owned(w)[path] + multiset(w.orphans)[path] + multiset(w.disk.unlinked)[path]
  {
    RunInvariant(o, run, steps, i);
    assert Kept(run[i])[path] <= 1;
  }

  /** The request stores an attachment and is then refused. */
  predicate LeavesBehind(o: Options, w: World, step: Step) {
    step.Receive? && step.body.Textless? && Opens(o, w, step)
  }

  /** No file is without an owner exactly when no request stored an attachment and was then refused. */
  lemma {:induction false} OrphansIff(o: Options, run: seq<World>, steps: seq<Step>, i: nat)
    requires IsRun(o, run, steps) && i < |run|
    ensures run[i].orphans == [] <==> forall k :: 0 <= k < i ==> !LeavesBehind(o, run[k], steps[k])
  {
    hide Check, Stored, Replayed, Clear, ClearAll, CanStore, Remember;
    if i > 0 {
      OrphansIff(o, run, steps, i - 1);
      assert run[i] == Next(o, run[i - 1], steps[i - 1]);
    }
  }

  /** From the moment a consumer is handed a record until it clears it, through every step between,
      the file of the record exists. */
  lemma FileExistsWhileHeld(o: Options, run: seq<World>, steps: seq<Step>, i: nat, k: nat)
    requires IsRun(o, run, steps) && i < |run| && k < |run[i].held| && run[i].held[k].temporary
    ensures run[i].held[k].path in run[i].disk.files
  {
    RunInvariant(o, run, steps, i);
    HeldIsStored(run[i], k);
  }

  /** Once the channel is destroyed and its consumer holds nothing, the files left are those of refused
      bodies, and every other was unlinked once for each time it was stored. */
  lemma NothingLeaks(o: Options, run: seq<World>, steps: seq<Step>, i: nat)
    requires IsRun(o, run, steps) && i < |run| && run[i].destroyed && run[i].held == []
    ensures var w := run[i];
            && multiset(w.created) == multiset(w.orphans) + multiset(w.disk.unlinked)
            && (forall p :: p in w.disk.files <==> p in w.orphans)
    ensures run[i].disk.files == {} <==> forall k :: 0 <= k < i ==> !LeavesBehind(o, run[k], steps[k])
  {
    hide LeavesBehind;
    RunInvariant(o, run, steps, i);
    DestroyedIsEmpty(o, run, steps, i);
    OrphansIff(o, run, steps, i);
    assert Owned(run[i]) == multiset{};
    assert run[i].orphans != [] ==> run[i].orphans[0] in run[i].disk.files;
  }

  lemma {:induction false} DestroyedIsEmpty(o: Options, run: seq<World>, steps: seq<Step>, i: nat)
    requires IsRun(o, run, steps) && i < |run| && run[i].destroyed
    ensures run[i].channel.inbox == []
  {
    assert i > 0 && run[i] == Next(o, run[i - 1], steps[i - 1]);
    if run[i - 1].destroyed {
      DestroyedIsEmpty(o, run, steps, i - 1);
    }
  }

  /** A request is answered as a replay by its nonce iff that nonce is one of the last 1024 accepted. */
  lemma ReplayedIff(o: Options, run: seq<World>, steps: seq<Step>, i: nat, nonce: string)
    requires IsRun(o, run, steps) && i < |run|
    ensures Seen(run[i].channel.nonces, nonce) <==> nonce != [] && nonce in LastN(run[i].nonces, MAX_NONCES)
    ensures Spaced(run[i].nonces, MAX_NONCES)
  {
    RunInvariant(o, run, steps, i);
  }

  /** One body, received, delivered, cleared and received again: its file is stored and unlinked twice,
      the second time because the nonce is known. */
  lemma SentAgain(o: Options, b: Body)
    requires b.Parsed? && b.inbound.temporary && b.nonce != [] && b.timestamp == 0 && o.rateLimit == 0
    ensures var receive := Receive(b, 1, 1);
            var again := Next(o, Next(o, Next(o, Next(o, START, receive), Listen), Release(0)), receive);
            var path := b.inbound.path;
            && again.created == [path, path] && again.disk == Disk({}, [path, path])
            && again.accepted == again.delivered == [b.inbound.message] && again.nonces == [b.nonce]
  {
    var path := b.inbound.path;
    var w1 := Next(o, START, Receive(b, 1, 1));
    assert w1.channel == Channel(IDLE, [b.nonce], [b.inbound]) && w1.disk == Disk({path}, []);
    var w3 := Next(o, Next(o, w1, Listen), Release(0));
    assert w3.disk == Disk({}, [path]) && w3.channel.nonces == [b.nonce];
    assert {path} - {path} == {};
  }

  /** In every run, a request is accepted exactly when it passes the limiter, its body is a message whose
      attachment, if any, can be stored, its timestamp is missing or within the window around the clock,
      and its nonce is empty or not among the last 1024 accepted. */
  lemma AcceptedIff(o: Options, run: seq<World>, steps: seq<Step>, i: nat, b: Body, arrived: int, now: int)
    requires IsRun(o, run, steps) && i < |run|
    ensures var w := run[i];
            Ingest(o, w.channel, w.disk, b, arrived, now).accepted
            <==> (Check(w.channel.limiter, o.rateLimit, arrived).1
                  && b.Parsed? && (b.inbound.temporary ==> b.inbound.path !in w.disk.files)
                  && (b.timestamp <= 0 || now - o.replayWindow <= b.timestamp <= now + o.replayWindow)
                  && (b.nonce == [] || b.nonce !in LastN(w.nonces, 1024)))
  {
    hide Check, LastN, Remember, IsRun, Clear;
    if b.Parsed? {
      ReplayedIff(o, run, steps, i, b.nonce);
    }
  }

  /** An accepted message is the last of the inbox with its file on disk; any other request leaves the
      inbox alone. */
  lemma AcceptedJoins(o: Options, w: World, b: Body, arrived: int, now: int)
    requires Allowed(w, Receive(b, arrived, now))
    ensures var r := Ingest(o, w.channel, w.disk, b, arrived, now);
            var v := Next(o, w, Receive(b, arrived, now));
            && (r.accepted ==> b.Parsed? && v.channel.inbox == w.channel.inbox + [b.inbound]
                               && (b.inbound.temporary ==> b.inbound.path in v.disk.files))
            && (!r.accepted ==> v.channel.inbox == w.channel.inbox && v.channel.nonces == w.channel.nonces)
  {
    hide Check, Remember, Replayed, Clear;
  }
}
