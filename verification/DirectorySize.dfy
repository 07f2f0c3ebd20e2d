/**
 When directory texts fit a frame: with keys of at most 44 bytes, the size of a public key in
 base64, as long as at most 11914 clients are connected at a time.
 */
module DirectorySize {
  import opened Bytes
  import opened Accounts
  import opened Directory
  import opened Answers
  import opened ServerSpec
  import opened Interleaving
  import opened SessionSafety
  import opened KeyDirectory

  const KEY_SIZE := 44
  const CROWD := 11_914

  ghost predicate ShortKeys(pub: Keys)
  {
    forall n :: ValidName(n) ==> |pub(n)| <= KEY_SIZE
  }

  // ---------------------------------------------------------------- sizes of texts

  /** At most 66 bytes for every entry: '@' and 19 characters, ':', 44 bytes of key, ';'. */
  lemma {:induction false} TableSize(entries: seq<Entry>)
    requires forall e :: e in entries ==> ValidName(e.name) && |e.key| <= KEY_SIZE
    ensures |PrintTable(entries)| <= 66 * |entries|
  {
    if |entries| == 1 {
      assert entries[0] in entries;
    } else if entries != [] {
      assert entries[0] in entries;
      TableSize(entries[1..]);
      assert PrintEntries(entries)[1..] == PrintEntries(entries[1..]);
    }
  }

  lemma SealFits(text: bytes)
    ensures Fits(Text(text)) <==> |text| <= 786_404
  {
  }

  lemma TableFits(entries: seq<Entry>)
    requires forall e :: e in entries ==> ValidName(e.name) && |e.key| <= KEY_SIZE
    requires |entries| <= CROWD
    ensures Fits(Text(KeysText(entries)))
  {
    TableSize(entries);
    SealFits(KeysText(entries));
  }

  /** An answer is shorter than the table of the same entries, or one key. */
  lemma AnswerFitsFrame(q: Query, entries: seq<Entry>)
    requires Fitting(q, entries) && |entries| <= CROWD && forall e :: e in entries ==> |e.key| <= KEY_SIZE
    ensures Fits(Answer(q, AnswerText(q, entries)))
  {
    if q.Members? { TableSize(entries); }
    SealFits(AnswerText(q, entries));
  }

  lemma AnnouncementFits(c: Session)
    requires ValidName(c.name) && |c.key| <= KEY_SIZE
    ensures Fits(Announcement(c))
  {
    SealFits(NewText(Entry(c.name, c.key)));
  }

  // ---------------------------------------------------------------- tables in transit

  ghost predicate SmallTable(pc: Pc)
  {
    Due(pc) ==> |pc.entries| <= CROWD && forall e :: e in pc.entries ==> |e.key| <= KEY_SIZE
  }

  ghost predicate SmallTables(s: State)
  {
    forall i :: i in s.pcs ==> SmallTable(s.pcs[i])
  }

  lemma DueFits(pc: Pc)
    requires Due(pc) && SmallTable(pc)
    requires pc.Sending? ==> forall e :: e in pc.entries ==> ValidName(e.name)
    requires pc.Answering? ==> Fitting(pc.query, pc.entries)
    ensures Fits(DuePacket(pc))
  {
    if pc.Sending? { TableFits(pc.entries); } else { AnswerFitsFrame(pc.query, pc.entries); }
  }

  lemma SmallTablesFit(pub: Keys, s: State)
    requires ShortKeys(pub) && Inv(s) && Complete(pub, s) && SmallTables(s)
    ensures DirectoryFits(s)
  {
    forall i | At(s, i)
      ensures Fits(Announcement(s.shared.sessions[i]))
      ensures Due(s.pcs[i]) ==> Fits(DuePacket(s.pcs[i]))
    {
      assert TrueKeys(pub, s, i) && SessionOk(s.shared, s.shared.sessions[i], s.pcs[i]);
      AnnouncementFits(s.shared.sessions[i]);
      if Due(s.pcs[i]) { DueFits(s.pcs[i]); }
    }
  }

  lemma {:induction false} EntriesAreFew(sessions: map<Id, Session>, order: seq<Id>, n: nat)
    requires n <= |order| && ServerSpec.Lists(sessions, order)
    ensures |Entries(sessions, order, n)| <= |order| - n
    decreases |order| - n
  {
    if n < |order| { EntriesAreFew(sessions, order, n + 1); }
  }

  /** Only reading the directory puts a table or an answer in transit. */
  ghost predicate NoNewTables(s: State, t: State)
  {
    forall i :: i in t.pcs && Due(t.pcs[i]) ==> i in s.pcs && t.pcs[i] == s.pcs[i]
  }

  lemma AccountsSendNothing(kdf: Kdf, s: State, e: Event)
    requires Ordered(s.shared)
    requires e.Register? || e.ReadAccount? || e.CheckLogin? || e.Grant? || e.SetProfile? || e.Rename? || e.SetPassword?
    ensures NoNewTables(s, Step(kdf, s, e))
  {
  }

  lemma RoomsSendNothing(kdf: Kdf, s: State, e: Event)
    requires Ordered(s.shared)
    requires e.CreateRoom? || e.EnterRoom? || e.JoinRoom? || e.LeaveRoom?
    ensures NoNewTables(s, Step(kdf, s, e))
  {
  }

  lemma ConnectionsSendNothing(kdf: Kdf, s: State, e: Event)
    requires Ordered(s.shared) && (e.Close? || e.Disconnect? || e.Connect? || e.Restart?)
    ensures NoNewTables(s, Step(kdf, s, e))
  {
  }

  lemma OthersSendNothing(kdf: Kdf, s: State, e: Event)
    requires Ordered(s.shared)
    requires e.SendTable? || e.SendAnswer? || e.Announce? || e.Relay? || e.Reply?
    ensures NoNewTables(s, Step(kdf, s, e))
  {
  }

  lemma PublishingSendsNothing(kdf: Kdf, s: State, e: Event)
    requires Ordered(s.shared) && (e.Publish? || e.Activate?)
    ensures NoNewTables(s, Step(kdf, s, e))
  {
  }

  lemma NoTableIsNew(kdf: Kdf, s: State, e: Event)
    requires Ordered(s.shared) && !e.TakeTable? && !e.Ask?
    ensures NoNewTables(s, Step(kdf, s, e))
  {
    if e.Publish? || e.Activate? {
      PublishingSendsNothing(kdf, s, e);
    } else if e.SendTable? || e.SendAnswer? || e.Announce? || e.Relay? || e.Reply? {
      OthersSendNothing(kdf, s, e);
    } else if e.Close? || e.Disconnect? || e.Connect? || e.Restart? {
      ConnectionsSendNothing(kdf, s, e);
    } else if e.Register? || e.ReadAccount? || e.CheckLogin? || e.Grant?
           || e.SetProfile? || e.Rename? || e.SetPassword? {
      AccountsSendNothing(kdf, s, e);
    } else {
      RoomsSendNothing(kdf, s, e);
    }
  }

  /** What a step reads for a goroutine. */
  ghost function ReadNow(s: State, e: Event): seq<Entry>
    requires Ordered(s.shared) && (e.TakeTable? || e.Ask?)
  {
    if e.TakeTable? then Entries(s.shared.sessions, s.shared.order, 0)
    else if At(s, e.id) then Answered(s.shared, e.id, e.query)
    else []
  }

  lemma OnlyReads(kdf: Kdf, s: State, e: Event, i: Id)
    requires Ordered(s.shared) && (e.TakeTable? || e.Ask?) && At(Step(kdf, s, e), i)
    ensures At(s, i)
    ensures var pc := Step(kdf, s, e).pcs[i];
      pc == s.pcs[i] || (Due(pc) && pc.entries == ReadNow(s, e))
  {
  }

  lemma ReadIsFew(s: State, e: Event)
    requires Inv(s) && (e.TakeTable? || e.Ask?)
    ensures |ReadNow(s, e)| <= |s.shared.order| || |ReadNow(s, e)| <= 1
  {
    EntriesAreFew(s.shared.sessions, s.shared.order, 0);
    if e.Ask? && At(s, e.id) && e.query.Members? {
      RoomEntriesAreEntries(s.shared.sessions, s.shared.order, 0, s.shared.sessions[e.id].room);
    }
  }

  lemma ReadKeysAreShort(pub: Keys, s: State, e: Event)
    requires GoodKeys(pub) && ShortKeys(pub) && Inv(s) && Complete(pub, s) && (e.TakeTable? || e.Ask?)
    ensures forall x :: x in ReadNow(s, e) ==> |x.key| <= KEY_SIZE
  {
    EntriesAre(pub, s, 0);
    if e.Ask? && At(s, e.id) { AnswerIsFromTable(s, e.id, e.query); }
  }

  lemma TablesStaySmall(kdf: Kdf, pub: Keys, s: State, e: Event)
    requires GoodKeys(pub) && ShortKeys(pub)
    requires Inv(s) && Complete(pub, s) && SmallTables(s) && |s.shared.order| <= CROWD
    ensures SmallTables(Step(kdf, s, e))
  {
    var t := Step(kdf, s, e);
    StepKeepsInv(kdf, s, e);
    forall i | i in t.pcs ensures SmallTable(t.pcs[i]) {
      if e.TakeTable? || e.Ask? {
        ReadIsFew(s, e);
        ReadKeysAreShort(pub, s, e);
        OnlyReads(kdf, s, e, i);
      } else {
        NoTableIsNew(kdf, s, e);
      }
    }
  }

  // ---------------------------------------------------------------- runs

  /** Never more than CROWD connections, each name publishes its one key, nobody renames. */
  ghost predicate CrowdRun(kdf: Kdf, pub: Keys, s: State, events: seq<Event>)
    requires Inv(s)
    decreases |events|
  {
    events != [] ==>
      && |s.shared.order| <= CROWD
      && KeyDirectory.Lawful(pub, s, events[0])
      && (StepKeepsInv(kdf, s, events[0]); CrowdRun(kdf, pub, Step(kdf, s, events[0]), events[1..]))
  }

  lemma {:induction false} CrowdRunIsLawful(kdf: Kdf, pub: Keys, s: State, events: seq<Event>)
    requires GoodKeys(pub) && ShortKeys(pub)
    requires Inv(s) && Complete(pub, s) && SmallTables(s) && CrowdRun(kdf, pub, s, events)
    ensures LawfulRun(kdf, pub, s, events)
    decreases |events|
  {
    if events != [] {
      SmallTablesFit(pub, s);
      DirectoryStep(kdf, pub, s, events[0]);
      TablesStaySmall(kdf, pub, s, events[0]);
      StepKeepsInv(kdf, s, events[0]);
      CrowdRunIsLawful(kdf, pub, Step(kdf, s, events[0]), events[1..]);
    }
  }

  /** The directory theorem with nothing assumed about frame sizes: short keys and at most 11914
      simultaneous connections are enough. */
  lemma DirectoryIsCompleteInCrowd(kdf: Kdf, pub: Keys, stored: map<bytes, Account>, table: map<bytes, Row>,
                                   events: seq<Event>, a: Id, b: Id)
    requires GoodKeys(pub) && ShortKeys(pub)
    ensures Inv(Boot(stored, table))
    ensures var s := Run(kdf, Boot(stored, table), events);
      CrowdRun(kdf, pub, Boot(stored, table), events) && Informed(s, a, b) ==> KnowsKey(pub, s, a, b)
  {
    DirectoryIsComplete(kdf, pub, stored, table, events, a, b);
    if CrowdRun(kdf, pub, Boot(stored, table), events) {
      CrowdRunIsLawful(kdf, pub, Boot(stored, table), events);
    }
  }
}
