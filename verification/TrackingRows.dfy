/** tracking/00.genieql.go and tracking/metadata.go: a torrents_metadata row over its life. */
module TrackingRows {
  import opened Common

  /** A timestamp column. */
  datatype Stamp = Infinity | Moment(t: nat)

  datatype Row = Row(
    bytes: nat, downloaded: nat, seeding: bool,
    initiated: Stamp, paused: Stamp, tombstoned: Stamp, verify: Stamp)

  type Rows = map<nat, Row>

  // ----- building a row -----------------------------------------------------

  /** The options that touch the three columns; the others leave them alone. */
  datatype DraftOption = Bytes(n: nat) | Downloaded(n: nat) | AutoSeeding | Neutral

  datatype Draft = Draft(bytes: nat, downloaded: nat, seeding: bool)

  function Applied(o: DraftOption, d: Draft): Draft {
    match o
    case Bytes(n) => d.(bytes := n)
    case Downloaded(n) => d.(downloaded := n)
    case AutoSeeding => d.(seeding := d.downloaded == d.bytes)
    case Neutral => d
  }

  /** NewMetadata: the options in order, over a zero row. */
  function Drafted(d: Draft, options: seq<DraftOption>): Draft
    decreases |options|
  {
    if options == [] then d else Drafted(Applied(options[0], d), options[1..])
  }

  const ZERO := Draft(0, 0, false)

  predicate Consistent(d: Draft) {
    d.seeding ==> d.downloaded == d.bytes
  }

  predicate Setter(o: DraftOption) {
    o.Bytes? || o.Downloaded?
  }

  predicate NoSetter(options: seq<DraftOption>) {
    forall o :: o in options ==> !Setter(o)
  }

  /** No size is set after an AutoSeeding that no later AutoSeeding repeats. */
  predicate Settled(options: seq<DraftOption>)
    decreases |options|
  {
    if options == [] then true
    else
      && Settled(options[1..])
      && (options[0].AutoSeeding? && AutoSeeding !in options[1..] ==> NoSetter(options[1..]))
  }

  /** The same options with other sizes. */
  predicate Alike(a: seq<DraftOption>, b: seq<DraftOption>) {
    |a| == |b| && forall i :: 0 <= i < |a| ==>
      && (a[i].Bytes? <==> b[i].Bytes?)
      && (a[i].Downloaded? <==> b[i].Downloaded?)
      && (a[i].AutoSeeding? <==> b[i].AutoSeeding?)
  }

  /** An option list of this shape is safe whatever the sizes are, exactly when it is settled. */
  lemma SafeExactly(options: seq<DraftOption>)
    ensures Settled(options)
            <==> forall other: seq<DraftOption> :: Alike(options, other) ==> Consistent(Drafted(ZERO, other))
  {
    if Settled(options) {
      forall other: seq<DraftOption> | Alike(options, other) ensures Consistent(Drafted(ZERO, other)) {
        AlikeSettled(options, other);
        SettledConsistent(ZERO, other);
      }
    } else {
      var other := Zeros(options);
      Unsettled(options, ZERO);
    }
  }

  lemma {:induction false} AlikeSettled(a: seq<DraftOption>, b: seq<DraftOption>)
    requires Alike(a, b) && Settled(a)
    ensures Settled(b)
    decreases |a|
  {
    if a == [] {
    } else {
      AlikeSettled(a[1..], b[1..]);
      SameKinds(a[1..], b[1..]);
    }
  }

  lemma SameKinds(a: seq<DraftOption>, b: seq<DraftOption>)
    requires Alike(a, b)
    ensures AutoSeeding in a <==> AutoSeeding in b
    ensures NoSetter(a) ==> NoSetter(b)
  {
    if AutoSeeding in a {
      var i :| 0 <= i < |a| && a[i] == AutoSeeding;
      assert b[i] == AutoSeeding;
    }
    if AutoSeeding in b {
      var i :| 0 <= i < |b| && b[i] == AutoSeeding;
      assert a[i] == AutoSeeding;
    }
    if NoSetter(a) {
      forall o | o in b ensures !Setter(o) {
        var i :| 0 <= i < |b| && b[i] == o;
        assert a[i] in a;
      }
    }
  }

  lemma {:induction false} SettledConsistent(d: Draft, options: seq<DraftOption>)
    requires Settled(options)
    requires d.seeding ==> AutoSeeding in options || (d.downloaded == d.bytes && NoSetter(options))
    ensures Consistent(Drafted(d, options))
    decreases |options|
  {
    if options == [] {
    } else {
      var o, rest := options[0], options[1..];
      assert options == [o] + rest;
      assert forall x :: x in rest ==> x in options;
      assert AutoSeeding in options ==> o.AutoSeeding? || AutoSeeding in rest;
      assert o in options;
      SettledConsistent(Applied(o, d), rest);
    }
  }

  /** The same options with every size 0 up to the last AutoSeeding; after it, 1 byte in all, 2 downloaded. */
  function Zeros(options: seq<DraftOption>): seq<DraftOption>
    decreases |options|
  {
    if options == [] then []
    else
      [match options[0]
       case Bytes(_) => Bytes(if AutoSeeding in options[1..] then 0 else 1)
       case Downloaded(_) => Downloaded(if AutoSeeding in options[1..] then 0 else 2)
       case other => other] + Zeros(options[1..])
  }

  /** Sizes that break an unsettled list. */
  lemma {:induction false} Unsettled(options: seq<DraftOption>, d: Draft)
    requires !Settled(options) && d.bytes == 0 && d.downloaded == 0
    ensures Alike(options, Zeros(options)) && !Consistent(Drafted(d, Zeros(options)))
    decreases |options|
  {
    var o, rest := options[0], options[1..];
    assert options == [o] + rest;
    ZerosAlike(options);
    var d1 := Applied(Zeros(options)[0], d);
    assert Zeros(options)[1..] == Zeros(rest);
    if !Settled(rest) {
      UnsettledHasAuto(rest);
      Unsettled(rest, d1);
    } else {
      LateSetter(rest, d1);
    }
  }

  lemma {:induction false} UnsettledHasAuto(options: seq<DraftOption>)
    requires !Settled(options)
    ensures AutoSeeding in options
    decreases |options|
  {
    if options[0].AutoSeeding? {
    } else {
      UnsettledHasAuto(options[1..]);
    }
  }

  lemma {:induction false} ZerosAlike(options: seq<DraftOption>)
    ensures Alike(options, Zeros(options))
    decreases |options|
  {
    if options == [] {
    } else {
      ZerosAlike(options[1..]);
    }
  }

  /** After the last AutoSeeding, any size set makes the two sizes differ. */
  lemma {:induction false} LateSetter(rest: seq<DraftOption>, d: Draft)
    requires AutoSeeding !in rest && d.seeding && d.bytes <= 1 && (d.downloaded == 0 || d.downloaded == 2)
    requires (d.bytes != d.downloaded) || exists o :: o in rest && Setter(o)
    ensures !Consistent(Drafted(d, Zeros(rest)))
    decreases |rest|
  {
    if rest == [] {
    } else {
      assert rest == [rest[0]] + rest[1..];
      assert Zeros(rest)[1..] == Zeros(rest[1..]);
      LateSetter(rest[1..], Applied(Zeros(rest)[0], d));
    }
  }

  // ----- the table ----------------------------------------------------------

  datatype Action =
    | Insert(id: nat, options: seq<DraftOption>, tombstoned: Stamp)
    | Progress(id: nat, downloaded: nat)
    | Verify(id: nat, downloaded: nat)
    | Complete(id: nat, downloaded: nat, now: nat)
    | Pause(id: nat, now: nat)
    | Download(id: nat, now: nat)
    | AutoDownload(id: nat, now: nat)
    | Tombstone(id: nat, now: nat)
    | Delete(id: nat)

  /** The row an action leaves behind. */
  function Updated(r: Row, a: Action): Row {
    match a
    case Insert(_, _, _) => r
    case Progress(_, downloaded) => r.(downloaded := downloaded, seeding := r.bytes == downloaded)
    case Verify(_, downloaded) => r.(downloaded := downloaded, seeding := r.bytes == downloaded, verify := Infinity)
    case Complete(_, downloaded, now) =>
      r.(downloaded := downloaded, seeding := r.bytes == downloaded, verify := Moment(now))
    case Pause(_, now) => r.(paused := Moment(now), initiated := Infinity)
    case Download(_, now) => r.(paused := Infinity, initiated := Moment(now))
    case AutoDownload(_, now) => r.(initiated := Moment(now))
    case Tombstone(_, now) => r.(tombstoned := Moment(now), initiated := Infinity, seeding := false)
    case Delete(_) => r
  }

  function Step(rows: Rows, a: Action): Rows {
    if a.Delete? then rows - {a.id}
    else if a.id in rows then rows[a.id := Updated(rows[a.id], a)]
    else if a.Insert? then rows[a.id := Fresh(Drafted(ZERO, a.options), a.tombstoned)]
    else rows
  }

  /** A new row: the listed columns start at their defaults. */
  function Fresh(md: Draft, tombstoned: Stamp): Row {
    Row(md.bytes, md.downloaded, md.seeding, Infinity, Infinity, tombstoned, Infinity)
  }

  /** A seeding row is complete. */
  ghost predicate Sound(rows: Rows) {
    forall id :: id in rows ==> rows[id].seeding ==> rows[id].downloaded == rows[id].bytes
  }

  /** Every inserted row was drafted by a settled list of options. */
  predicate Drawn(a: Action) {
    a.Insert? ==> Settled(a.options)
  }

  /** The statements that store a count of downloaded bytes. */
  predicate Counts(a: Action) {
    a.Progress? || a.Verify? || a.Complete?
  }

  /** The stamps a statement sets, column by column; the columns it does not name stay. */
  predicate Stamps(r: Row, r': Row, a: Action) {
    && r'.paused == (if a.Pause? then Moment(a.now) else if a.Download? then Infinity else r.paused)
    && r'.initiated == (if a.Download? || a.AutoDownload? then Moment(a.now)
                        else if a.Pause? || a.Tombstone? then Infinity else r.initiated)
    && r'.tombstoned == (if a.Tombstone? then Moment(a.now) else r.tombstoned)
    && r'.verify == (if a.Complete? then Moment(a.now) else if a.Verify? then Infinity else r.verify)
  }

  /** The statements, on the stored rows. */
  class Table {
    var rows: Rows

    constructor ()
      ensures rows == map[]
    {
      rows := map[];
    }

    /** One statement. An insert that meets its id touches only the tracker, which is not modelled. */
    method Execute(a: Action)
      modifies this
      ensures forall x :: x != a.id ==> (x in rows <==> x in old(rows)) && (x in rows ==> rows[x] == old(rows)[x])
      ensures a.id in rows <==> !a.Delete? && (a.id in old(rows) || a.Insert?)
      ensures a.id in old(rows) && !a.Delete? ==> rows[a.id].bytes == old(rows)[a.id].bytes
      ensures a.id in rows && Counts(a) ==>
        rows[a.id].downloaded == a.downloaded && (rows[a.id].seeding <==> rows[a.id].bytes == a.downloaded)
      ensures a.id in old(rows) && !Counts(a) && !a.Delete? ==>
        && rows[a.id].downloaded == old(rows)[a.id].downloaded
        && rows[a.id].seeding == (old(rows)[a.id].seeding && !a.Tombstone?)
      ensures a.id in old(rows) && !a.Delete? ==> Stamps(old(rows)[a.id], rows[a.id], a)
      ensures a.id in rows && a.id !in old(rows) ==>
        var r := rows[a.id];
        Draft(r.bytes, r.downloaded, r.seeding) == Drafted(ZERO, a.options)
        && r.initiated == r.paused == r.verify == Infinity && r.tombstoned == a.tombstoned
      ensures Sound(old(rows)) && Drawn(a) ==> Sound(rows)
      ensures rows == Step(old(rows), a)
    {
      if a.Insert? && Drawn(a) {
        SettledConsistent(ZERO, a.options);
      }
      if a.Delete? {
        rows := rows - {a.id};
      } else if a.id !in rows {
        if a.Insert? {
          var md := NewMetadata(a.options);
          rows := rows[a.id := Fresh(md, a.tombstoned)];
        }
      } else if !a.Insert? {
        var r := rows[a.id];
        match a {
          case Progress(_, downloaded) =>
            r := r.(downloaded := downloaded);
            r := r.(seeding := r.bytes == downloaded);
          case Verify(_, downloaded) =>
            r := r.(downloaded := downloaded, verify := Infinity);
            r := r.(seeding := r.bytes == downloaded);
          case Complete(_, downloaded, now) =>
            r := r.(downloaded := downloaded, verify := Moment(now));
            r := r.(seeding := r.bytes == downloaded);
          case Pause(_, now) =>
            r := r.(paused := Moment(now), initiated := Infinity);
          case Download(_, now) =>
            r := r.(paused := Infinity, initiated := Moment(now));
          case AutoDownload(_, now) =>
            r := r.(initiated := Moment(now));
          case Tombstone(_, now) =>
            r := r.(tombstoned := Moment(now), initiated := Infinity, seeding := false);
        }
        rows := rows[a.id := r];
      }
    }

    /** langx.Clone: each option in turn changes the draft. */
    static method NewMetadata(options: seq<DraftOption>) returns (md: Draft)
      ensures md == Drafted(ZERO, options)
    {
      md := ZERO;
      var i := 0;
      while i < |options|
        invariant 0 <= i <= |options|
        invariant Drafted(md, options[i..]) == Drafted(ZERO, options)
      {
        match options[i] {
          case Bytes(n) => md := md.(bytes := n);
          case Downloaded(n) => md := md.(downloaded := n);
          case AutoSeeding => md := md.(seeding := md.downloaded == md.bytes);
          case Neutral =>
        }
        assert options[i..][1..] == options[i + 1..];
        i := i + 1;
      }
    }
  }

  function Run(rows: Rows, actions: seq<Action>): Rows
    decreases |actions|
  {
    if actions == [] then rows else Run(Step(rows, actions[0]), actions[1..])
  }

  // ----- seeding ------------------------------------------------------------

  predicate Passed(s: Stamp, now: nat) {
    s.Moment? && s.t < now
  }

  /** The downloading listing: initiated, incomplete, not paused. */
  predicate Listed(r: Row, now: nat) {
    Passed(r.initiated, now) && r.downloaded < r.bytes && r.paused == Infinity
  }

  lemma {:induction false} RunSound(rows: Rows, actions: seq<Action>)
    requires Sound(rows) && forall a :: a in actions ==> Drawn(a)
    ensures Sound(Run(rows, actions))
    decreases |actions|
  {
    if actions == [] {
    } else {
      assert Drawn(actions[0]);
      if actions[0].Insert? {
        SettledConsistent(ZERO, actions[0].options);
      }
      RunSound(Step(rows, actions[0]), actions[1..]);
    }
  }

  /** Over every run from an empty table: a seeding row is complete, so the downloading listing never shows one. */
  lemma SeedingNeverListed(actions: seq<Action>, id: nat, now: nat)
    requires forall a :: a in actions ==> Drawn(a)
    ensures var rows := Run(map[], actions);
            id in rows && rows[id].seeding ==> rows[id].downloaded == rows[id].bytes && !Listed(rows[id], now)
  {
    RunSound(map[], actions);
  }

  /** A paused row stays off the listing until somebody asks for its download, however it is updated meanwhile. */
  lemma {:induction false} PausedStaysOff(rows: Rows, actions: seq<Action>, id: nat, now: nat)
    requires id in rows && rows[id].paused != Infinity
    requires forall a :: a in actions ==> a.id == id ==> !a.Download? && !a.Delete?
    ensures var rows' := Run(rows, actions); id in rows' && !Listed(rows'[id], now)
    decreases |actions|
  {
    if actions == [] {
    } else {
      assert actions[0] in actions;
      PausedStaysOff(Step(rows, actions[0]), actions[1..], id, now);
    }
  }

  lemma RunAppend(rows: Rows, a: Action, actions: seq<Action>)
    ensures Run(rows, [a] + actions) == Run(Step(rows, a), actions)
  {
    assert ([a] + actions)[1..] == actions;
  }

  /** After a pause the row is never listed, at any time and through every run, until somebody asks for its download. */
  lemma PauseUnlists(rows: Rows, id: nat, now: nat, actions: seq<Action>, later: nat)
    requires id in rows
    requires forall a :: a in actions ==> a.id == id ==> !a.Download? && !a.Delete?
    ensures var rows' := Run(rows, [Pause(id, now)] + actions); id in rows' && !Listed(rows'[id], later)
  {
    RunAppend(rows, Pause(id, now), actions);
    PausedStaysOff(Step(rows, Pause(id, now)), actions, id, later);
  }

  /** A tombstoned row is not listed until somebody, or the automatic download, asks for it again. */
  lemma {:induction false} UninitiatedStaysOff(rows: Rows, actions: seq<Action>, id: nat, now: nat)
    requires id in rows && rows[id].initiated == Infinity
    requires forall a :: a in actions ==> a.id == id ==> !a.Download? && !a.AutoDownload? && !a.Delete?
    ensures var rows' := Run(rows, actions); id in rows' && !Listed(rows'[id], now)
    decreases |actions|
  {
    if actions == [] {
    } else {
      assert actions[0] in actions;
      UninitiatedStaysOff(Step(rows, actions[0]), actions[1..], id, now);
    }
  }

  lemma TombstoneUnlists(rows: Rows, id: nat, now: nat, actions: seq<Action>, later: nat)
    requires id in rows
    requires forall a :: a in actions ==> a.id == id ==> !a.Download? && !a.AutoDownload? && !a.Delete?
    ensures var rows' := Run(rows, [Tombstone(id, now)] + actions); id in rows' && !Listed(rows'[id], later)
  {
    RunAppend(rows, Tombstone(id, now), actions);
    UninitiatedStaysOff(Step(rows, Tombstone(id, now)), actions, id, later);
  }

  /** What touches neither pause nor start of the row with this id. */
  predicate Leaves(a: Action, id: nat) {
    a.id == id ==> a.Insert? || a.Verify? || a.Progress? || a.Complete?
  }

  lemma {:induction false} LeftAlone(rows: Rows, actions: seq<Action>, id: nat)
    requires id in rows && forall a :: a in actions ==> Leaves(a, id)
    ensures var rows' := Run(rows, actions);
            && id in rows' && rows'[id].initiated == rows[id].initiated
            && rows'[id].paused == rows[id].paused && rows'[id].bytes == rows[id].bytes
    decreases |actions|
  {
    if actions == [] {
    } else {
      assert actions[0] in actions;
      LeftAlone(Step(rows, actions[0]), actions[1..], id);
    }
  }

  /** A download request lists the row, however its counts are updated afterwards, exactly while the clock is past
      the request and bytes are missing. */
  lemma DownloadListsExactly(rows: Rows, id: nat, now: nat, actions: seq<Action>, later: nat)
    requires id in rows && forall a :: a in actions ==> Leaves(a, id)
    ensures var rows' := Run(rows, [Download(id, now)] + actions);
            id in rows' && (Listed(rows'[id], later) <==> now < later && rows'[id].downloaded < rows[id].bytes)
  {
    RunAppend(rows, Download(id, now), actions);
    LeftAlone(Step(rows, Download(id, now)), actions, id);
  }

  /** The automatic download does so only for a row that is not paused. */
  lemma AutoDownloadListsExactly(rows: Rows, id: nat, now: nat, actions: seq<Action>, later: nat)
    requires id in rows && forall a :: a in actions ==> Leaves(a, id)
    ensures var rows' := Run(rows, [AutoDownload(id, now)] + actions);
            id in rows' && (Listed(rows'[id], later)
                            <==> rows[id].paused == Infinity && now < later && rows'[id].downloaded < rows[id].bytes)
  {
    RunAppend(rows, AutoDownload(id, now), actions);
    LeftAlone(Step(rows, AutoDownload(id, now)), actions, id);
  }
}
