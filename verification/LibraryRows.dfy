/** library/00.genieql.go and disk.quota.go: the archive id of a library_metadata row over its life. */
module LibraryRows {
  import opened Common

  datatype Row = Row(archiveId: Uuid, bytes: nat, quotaUsage: nat)

  type Rows = map<nat, Row>

  predicate Archivable(r: Row) {
    r.archiveId.Max?
  }

  predicate Archived(r: Row) {
    !r.archiveId.Nil? && !r.archiveId.Max?
  }

  /** What a search with MetadataQueryArchived or MetadataQueryArchivable selects. */
  predicate Selected(rows: Rows, id: nat, archived: bool) {
    id in rows && if archived then Archived(rows[id]) else Archivable(rows[id])
  }

  predicate RealAt(rows: Rows, id: nat) {
    id in rows && Archived(rows[id])
  }

  /** A row with a real archive id keeps it. */
  ghost predicate Keeps(rows: Rows, rows': Rows) {
    forall id :: RealAt(rows, id) ==> id in rows' && rows'[id].archiveId == rows[id].archiveId
  }

  /** INSERT ... ON CONFLICT (id): an existing row takes the new archive id only in place of Nil or Max. */
  function Upserted(rows: Rows, id: nat, md: Row): Rows {
    if id !in rows then rows[id := md]
    else if rows[id].archiveId.Nil? || rows[id].archiveId.Max? then rows[id := rows[id].(archiveId := md.archiveId)]
    else rows
  }

  /** UPDATE ... SET archive_id, quota_usage WHERE id. */
  function Recorded(rows: Rows, id: nat, aid: nat, quota: nat): Rows {
    if id in rows then rows[id := rows[id].(archiveId := Id(aid), quotaUsage := quota)] else rows
  }

  /** The table, with its statements. */
  class Table {
    var rows: Rows

    constructor ()
      ensures rows == map[]
    {
      rows := map[];
    }

    method MetadataInsertWithDefaults(id: nat, md: Row)
      modifies this
      ensures rows.Keys == old(rows).Keys + {id} && forall x :: x in old(rows) && x != id ==> rows[x] == old(rows)[x]
      ensures id !in old(rows) ==> rows[id] == md
      ensures RealAt(old(rows), id) ==> rows[id] == old(rows)[id]
      ensures id in old(rows) && !RealAt(old(rows), id) ==> rows[id].archiveId == md.archiveId
      ensures id in old(rows) ==>
        rows[id].bytes == old(rows)[id].bytes && rows[id].quotaUsage == old(rows)[id].quotaUsage
      ensures rows == Upserted(old(rows), id, md)
    {
      if id !in rows {
        rows := rows[id := md];
      } else {
        var r := rows[id];
        rows := rows[id := r.(archiveId := if r.archiveId.Nil? || r.archiveId.Max? then md.archiveId else r.archiveId)];
      }
    }

    method MetadataArchivedByID(id: nat, aid: nat, quota: nat)
      modifies this
      ensures rows.Keys == old(rows).Keys && forall x :: x in rows && x != id ==> rows[x] == old(rows)[x]
      ensures id in rows ==> Archived(rows[id]) && rows[id].archiveId == Id(aid) && rows[id].quotaUsage == quota
      ensures id in rows ==> rows[id].bytes == old(rows)[id].bytes
      ensures Keeps(old(rows), rows) <==> RealAt(old(rows), id) ==> old(rows)[id].archiveId == Id(aid)
      ensures rows == Recorded(old(rows), id, aid, quota)
    {
      if id in rows {
        rows := rows[id := rows[id].(archiveId := Id(aid), quotaUsage := quota)];
      }
    }

    /** The result set of a search, in some order, each row once. */
    method Search(archived: bool) returns (listing: seq<nat>)
      ensures forall id :: id in listing <==>
        id in rows && if archived then rows[id].archiveId.Id? else rows[id].archiveId == Max
      ensures Lists(rows, listing, archived)
    {
      listing := [];
      var left := set id | id in rows && Selected(rows, id, archived);
      while left != {}
        invariant forall id :: Selected(rows, id, archived) <==> id in left || id in listing
        invariant forall id :: id in listing ==> id !in left
        invariant Distinct(listing)
        decreases left
      {
        var id :| id in left;
        left := left - {id};
        listing := listing + [id];
      }
    }
  }

  predicate Distinct(ids: seq<nat>) {
    forall i, j :: 0 <= i < j < |ids| ==> ids[i] != ids[j]
  }

  /** listing holds exactly the archivable, or the archived, rows, each once. */
  predicate Lists(rows: Rows, listing: seq<nat>, archived: bool) {
    && Distinct(listing)
    && (forall id :: id in listing ==> Selected(rows, id, archived))
    && (forall id :: id in rows && Selected(rows, id, archived) ==> id in listing)
  }

  // ----- the loops ----------------------------------------------------------

  /** pass and reclaim: the rows the running archive and reclaim pass have still to visit.
      recorded: how often each row was recorded as archived. reclaimed: whose blocks were removed. */
  datatype State = State(rows: Rows, pass: seq<nat>, reclaim: seq<nat>, recorded: map<nat, nat>, reclaimed: set<nat>)

  datatype Action =
    | Upsert(id: nat, md: Row)
    | BeginPass(listing: seq<nat>)
    | ArchiveNext(uploaded: Option<(nat, nat)>)     // the upload gave an archive id and a quota, or failed
    | BeginReclaim(listing: seq<nat>)
    | ReclaimNext(removed: bool)

  function Times(s: State, id: nat): nat {
    if id in s.recorded then s.recorded[id] else 0
  }

  predicate Enabled(s: State, a: Action) {
    match a
    case Upsert(_, _) => true
    case BeginPass(listing) => s.pass == [] && Lists(s.rows, listing, false)
    case ArchiveNext(_) => s.pass != []
    case BeginReclaim(listing) => s.reclaim == [] && Lists(s.rows, listing, true)
    case ReclaimNext(_) => s.reclaim != []
  }

  function Apply(s: State, a: Action): State
    requires Enabled(s, a)
  {
    match a
    case Upsert(id, md) => s.(rows := Upserted(s.rows, id, md))
    case BeginPass(listing) => s.(pass := listing)
    case ArchiveNext(uploaded) =>
      if uploaded == None then s.(pass := s.pass[1..])
      else s.(rows := Recorded(s.rows, s.pass[0], uploaded.value.0, uploaded.value.1),
              recorded := s.recorded[s.pass[0] := Times(s, s.pass[0]) + 1], pass := s.pass[1..])
    case BeginReclaim(listing) => s.(reclaim := listing)
    case ReclaimNext(removed) =>
      s.(reclaim := s.reclaim[1..], reclaimed := if removed then s.reclaimed + {s.reclaim[0]} else s.reclaimed)
  }

  /** No upsert brings a real archive id to a row that the running pass is still going to archive. */
  predicate Gentle(s: State, a: Action) {
    a.Upsert? && a.md.archiveId.Id? ==> a.id !in s.pass
  }

  /** What every step keeps: a row still to be archived was never recorded, what was recorded or reclaimed is real. */
  ghost predicate Inv(s: State) {
    && Distinct(s.pass)
    && (forall id :: id in s.pass ==> id in s.rows && Times(s, id) == 0)
    && (forall id :: id in s.reclaim || id in s.reclaimed ==> RealAt(s.rows, id))
    && (forall id :: Times(s, id) <= 1 && (Times(s, id) == 1 ==> RealAt(s.rows, id)))
  }

  /** What gentle steps keep besides: no row still to be archived has a real id. */
  ghost predicate PassInv(s: State) {
    forall id :: id in s.pass ==> !RealAt(s.rows, id)
  }

  /** A row that had a real archive id has one. */
  ghost predicate StayReal(rows: Rows, rows': Rows) {
    forall id :: RealAt(rows, id) ==> RealAt(rows', id)
  }

  lemma StepInv(s: State, a: Action)
    requires Inv(s) && Enabled(s, a)
    ensures Inv(Apply(s, a)) && StayReal(s.rows, Apply(s, a).rows)
  {
    if a.ArchiveNext? {
      ArchiveInv(s, a);
    } else if a.Upsert? {
      UpsertInv(s, a);
    } else {
      var s' := Apply(s, a);
      if a.ReclaimNext? {
        assert s.reclaim[0] in s.reclaim;
        assert forall id :: id in s'.reclaim ==> id in s.reclaim;
      }
      forall id ensures Times(s', id) == Times(s, id) {}
    }
  }

  lemma UpsertInv(s: State, a: Action)
    requires Inv(s) && Enabled(s, a) && a.Upsert?
    ensures Inv(Apply(s, a)) && StayReal(s.rows, Apply(s, a).rows)
  {
    forall id ensures Times(Apply(s, a), id) == Times(s, id) {}
  }

  lemma ArchiveInv(s: State, a: Action)
    requires Inv(s) && Enabled(s, a) && a.ArchiveNext?
    ensures Inv(Apply(s, a)) && StayReal(s.rows, Apply(s, a).rows)
  {
    var s' := Apply(s, a);
    assert s.pass[0] in s.pass;
    assert forall id :: id in s'.pass ==> id in s.pass && id != s.pass[0];
    forall id ensures Times(s', id) == if a.uploaded != None && id == s.pass[0] then 1 else Times(s, id) {}
    forall id ensures Times(s', id) <= 1 && (Times(s', id) == 1 ==> RealAt(s'.rows, id)) {
      assert Times(s, id) <= 1 && (Times(s, id) == 1 ==> RealAt(s.rows, id));
    }
  }

  lemma GentleStep(s: State, a: Action)
    requires Inv(s) && PassInv(s) && Enabled(s, a) && Gentle(s, a)
    ensures PassInv(Apply(s, a)) && Keeps(s.rows, Apply(s, a).rows)
  {
    if a.ArchiveNext? {
      assert s.pass[0] in s.pass;
      assert forall id :: id in Apply(s, a).pass ==> id in s.pass && id != s.pass[0];
    }
  }

  // ----- whole runs ---------------------------------------------------------

  function Exec(s: State, actions: seq<Action>): Option<State>
    decreases |actions|
  {
    if actions == [] then Some(s)
    else if Enabled(s, actions[0]) then Exec(Apply(s, actions[0]), actions[1..])
    else None
  }

  /** Every upsert of the run is gentle where it happens. */
  predicate AllGentle(s: State, actions: seq<Action>)
    decreases |actions|
  {
    actions == []
    || (Enabled(s, actions[0]) && Gentle(s, actions[0]) && AllGentle(Apply(s, actions[0]), actions[1..]))
  }

  lemma {:induction false} ExecInv(s: State, actions: seq<Action>)
    requires Inv(s)
    ensures Exec(s, actions) != None ==>
      Inv(Exec(s, actions).value) && StayReal(s.rows, Exec(s, actions).value.rows)
    decreases |actions|
  {
    hide Inv, Apply, Enabled;
    if actions == [] {
    } else if Enabled(s, actions[0]) {
      StepInv(s, actions[0]);
      ExecInv(Apply(s, actions[0]), actions[1..]);
    }
  }

  lemma {:induction false} GentleInv(s: State, actions: seq<Action>)
    requires Inv(s) && PassInv(s) && AllGentle(s, actions)
    ensures Exec(s, actions) != None
    ensures PassInv(Exec(s, actions).value) && Keeps(s.rows, Exec(s, actions).value.rows)
    decreases |actions|
  {
    hide Inv, PassInv, Apply, Enabled, Gentle;
    if actions == [] {
    } else {
      StepInv(s, actions[0]);
      GentleStep(s, actions[0]);
      GentleInv(Apply(s, actions[0]), actions[1..]);
    }
  }

  /** How often a list of actions records row id as archived. */
  function Recordings(s: State, actions: seq<Action>, id: nat): nat
    decreases |actions|
  {
    if actions == [] || !Enabled(s, actions[0]) then 0
    else
      (if actions[0].ArchiveNext? && actions[0].uploaded != None && s.pass[0] == id then 1 else 0)
      + Recordings(Apply(s, actions[0]), actions[1..], id)
  }

  lemma {:induction false} TimesAre(s: State, actions: seq<Action>, id: nat)
    requires Exec(s, actions) != None
    ensures Times(Exec(s, actions).value, id) == Times(s, id) + Recordings(s, actions, id)
    decreases |actions|
  {
    if actions == [] {
    } else {
      assert Times(Apply(s, actions[0]), id) == Times(s, id)
             + if actions[0].ArchiveNext? && actions[0].uploaded != None && s.pass[0] == id then 1 else 0;
      TimesAre(Apply(s, actions[0]), actions[1..], id);
    }
  }

  function Empty(): State {
    State(map[], [], [], map[], {})
  }

  /** Over every run, whatever is upserted when: no row is recorded as archived twice, only archived rows are ever
      reclaimed, and a row that once had a real archive id has one ever after. */
  lemma ArchivedOnce(actions: seq<Action>, more: seq<Action>)
    ensures Exec(Empty(), actions) != None ==>
      var s := Exec(Empty(), actions).value;
      && (forall id :: Recordings(Empty(), actions, id) <= 1)
      && (forall id :: id in s.reclaimed ==> RealAt(s.rows, id))
      && (Exec(s, more) != None ==> StayReal(s.rows, Exec(s, more).value.rows))
  {
    hide Exec;
    ExecInv(Empty(), actions);
    if Exec(Empty(), actions) != None {
      ExecInv(Exec(Empty(), actions).value, more);
      forall id ensures Recordings(Empty(), actions, id) <= 1 {
        TimesAre(Empty(), actions, id);
        assert Times(Exec(Empty(), actions).value, id) <= 1;
      }
    }
  }

  /** Between any two moments of a run of gentle upserts, archive passes and reclaim passes: a real archive id
      stays the same. */
  lemma ArchiveIdsStay(actions: seq<Action>, more: seq<Action>)
    requires AllGentle(Empty(), actions)
    ensures Exec(Empty(), actions) != None
    ensures var s := Exec(Empty(), actions).value;
            AllGentle(s, more) ==> Exec(s, more) != None && Keeps(s.rows, Exec(s, more).value.rows)
  {
    hide Exec, AllGentle;
    ExecInv(Empty(), actions);
    GentleInv(Empty(), actions);
    if AllGentle(Exec(Empty(), actions).value, more) {
      GentleInv(Exec(Empty(), actions).value, more);
    }
  }

  // ----- exactly when ids are safe ------------------------------------------

  /** Every gentle continuation keeps every real archive id. */
  ghost predicate Safe(s: State) {
    forall more :: AllGentle(s, more) ==> Exec(s, more) != None && Keeps(s.rows, Exec(s, more).value.rows)
  }

  /** After an upsert every real archive id is safe if and only if the upsert was gentle: what a caller can check
      is whether the row is one that the running pass is still to archive. */
  lemma SafeExactly(s: State, a: Action)
    requires Inv(s) && PassInv(s) && a.Upsert?
    ensures Safe(Apply(s, a)) <==> Gentle(s, a)
  {
    hide Exec, AllGentle;
    StepInv(s, a);
    if Gentle(s, a) {
      GentleStep(s, a);
      forall more | AllGentle(Apply(s, a), more)
        ensures Exec(Apply(s, a), more) != None && Keeps(Apply(s, a).rows, Exec(Apply(s, a), more).value.rows)
      {
        GentleInv(Apply(s, a), more);
      }
    } else {
      var k :| 0 <= k < |s.pass| && s.pass[k] == a.id;
      Overwritten(Apply(s, a), k);
    }
  }

  /** The pass goes on: the uploads before the row fail, its own succeeds with another id. */
  function UploadsTo(k: nat, aid: nat): seq<Action> {
    if k == 0 then [ArchiveNext(Some((aid, 0)))] else [ArchiveNext(None)] + UploadsTo(k - 1, aid)
  }

  lemma {:induction false} Drains(s: State, k: nat, aid: nat)
    requires k < |s.pass| && s.pass[k] in s.rows
    ensures AllGentle(s, UploadsTo(k, aid)) && Exec(s, UploadsTo(k, aid)) != None
    ensures var rows := Exec(s, UploadsTo(k, aid)).value.rows;
            s.pass[k] in rows && rows[s.pass[k]].archiveId == Id(aid)
    decreases k
  {
    var a := UploadsTo(k, aid)[0];
    if k == 0 {
      assert UploadsTo(k, aid)[1..] == [];
      assert Exec(Apply(s, a), []) == Some(Apply(s, a));
    } else {
      assert UploadsTo(k, aid)[1..] == UploadsTo(k - 1, aid);
      Drains(Apply(s, a), k - 1, aid);
    }
  }

  lemma Overwritten(s: State, k: nat)
    requires k < |s.pass| && RealAt(s.rows, s.pass[k])
    ensures !Safe(s)
  {
    hide Exec, AllGentle;
    Drains(s, k, s.rows[s.pass[k]].archiveId.n + 1);
    assert !Keeps(s.rows, Exec(s, UploadsTo(k, s.rows[s.pass[k]].archiveId.n + 1)).value.rows);
  }

  // ----- what a pass does ---------------------------------------------------

  /** The uploads of a pass, one for each row of its listing. */
  function Uploads(uploads: seq<Option<(nat, nat)>>): seq<Action> {
    if uploads == [] then [] else [ArchiveNext(uploads[0])] + Uploads(uploads[1..])
  }

  /** What a pass leaves of a row. */
  function After(r: Row, upload: Option<(nat, nat)>): Row {
    if upload == None then r else Row(Id(upload.value.0), r.bytes, upload.value.1)
  }

  lemma PassStep(s: State, upload: Option<(nat, nat)>)
    requires s.pass != [] && Distinct(s.pass) && s.pass[0] in s.rows
    ensures var s1 := Apply(s, ArchiveNext(upload));
            && s1.pass == s.pass[1..] && Distinct(s1.pass) && s1.rows.Keys == s.rows.Keys
            && s1.rows[s.pass[0]] == After(s.rows[s.pass[0]], upload)
            && (forall id :: id in s.rows && id != s.pass[0] ==> s1.rows[id] == s.rows[id])
            && (forall id :: id in s1.pass ==> id in s.pass && id != s.pass[0])
  {
  }

  /** Left alone, a pass leaves the rows that it was not given as they are. */
  lemma {:induction false} PassLeaves(s: State, uploads: seq<Option<(nat, nat)>>, id: nat)
    requires Distinct(s.pass) && |uploads| == |s.pass| && (forall x :: x in s.pass ==> x in s.rows)
    requires id !in s.pass
    ensures Exec(s, Uploads(uploads)) != None
    ensures var s' := Exec(s, Uploads(uploads)).value;
            s'.pass == [] && s'.rows.Keys == s.rows.Keys && (id in s.rows ==> s'.rows[id] == s.rows[id])
    decreases |uploads|
  {
    hide Apply;
    if uploads == [] {
      assert Exec(s, []) == Some(s);
    } else {
      assert s.pass[0] in s.pass;
      assert Uploads(uploads)[0] == ArchiveNext(uploads[0]) && Uploads(uploads)[1..] == Uploads(uploads[1..]);
      PassStep(s, uploads[0]);
      PassLeaves(Apply(s, ArchiveNext(uploads[0])), uploads[1..], id);
    }
  }

  /** And records exactly those it was given whose upload succeeds, with the id and the quota of their own upload. */
  lemma {:induction false} PassArchives(s: State, uploads: seq<Option<(nat, nat)>>, k: nat)
    requires Distinct(s.pass) && |uploads| == |s.pass| && forall x :: x in s.pass ==> x in s.rows
    requires k < |s.pass|
    ensures Exec(s, Uploads(uploads)) != None
    ensures var s' := Exec(s, Uploads(uploads)).value;
            s.pass[k] in s'.rows && s'.rows[s.pass[k]] == After(s.rows[s.pass[k]], uploads[k])
    decreases |uploads|
  {
    hide Apply, After;
    assert s.pass[0] in s.pass && s.pass[k] in s.pass;
    assert Uploads(uploads)[0] == ArchiveNext(uploads[0]) && Uploads(uploads)[1..] == Uploads(uploads[1..]);
    PassStep(s, uploads[0]);
    if k == 0 {
      PassLeaves(Apply(s, ArchiveNext(uploads[0])), uploads[1..], s.pass[0]);
    } else {
      PassArchives(Apply(s, ArchiveNext(uploads[0])), uploads[1..], k - 1);
    }
  }

  /** A whole pass over the table: a row is still archivable afterwards exactly when it was and its upload failed. */
  lemma PassEmpties(s: State, listing: seq<nat>, uploads: seq<Option<(nat, nat)>>, id: nat)
    requires s.pass == [] && Lists(s.rows, listing, false) && |uploads| == |listing| && id in s.rows
    ensures Exec(s, [BeginPass(listing)] + Uploads(uploads)) != None
    ensures var rows := Exec(s, [BeginPass(listing)] + Uploads(uploads)).value.rows;
            id in rows &&
            if s.rows[id].archiveId == Max
            then exists k :: 0 <= k < |listing| && listing[k] == id && rows[id] == After(s.rows[id], uploads[k])
            else rows[id] == s.rows[id]
  {
    hide Exec, After;
    var a := BeginPass(listing);
    var s1 := Apply(s, a);
    ExecCons(s, a, Uploads(uploads));
    if s.rows[id].archiveId == Max {
      var k :| 0 <= k < |listing| && listing[k] == id;
      PassArchives(s1, uploads, k);
    } else {
      PassLeaves(s1, uploads, id);
    }
  }

  lemma ExecCons(s: State, a: Action, rest: seq<Action>)
    requires Enabled(s, a)
    ensures Exec(s, [a] + rest) == Exec(Apply(s, a), rest)
  {
    hide Enabled, Apply;
    assert ([a] + rest)[1..] == rest;
  }

  function Removals(removed: seq<bool>): seq<Action> {
    if removed == [] then [] else [ReclaimNext(removed[0])] + Removals(removed[1..])
  }

  /** Row id is one whose removal succeeds. */
  predicate Removes(ids: seq<nat>, removed: seq<bool>, id: nat)
    requires |removed| == |ids|
  {
    exists i :: 0 <= i < |removed| && removed[i] && ids[i] == id
  }

  /** A reclaim pass removes the blocks of exactly the rows it was given whose removal succeeds, and no row changes. */
  lemma {:induction false} PassReclaims(s: State, removed: seq<bool>)
    requires |removed| == |s.reclaim|
    ensures Exec(s, Removals(removed)) != None
    ensures var s' := Exec(s, Removals(removed)).value;
            && s'.reclaim == [] && s'.rows == s.rows
            && (forall id :: id in s'.reclaimed <==> id in s.reclaimed || Removes(s.reclaim, removed, id))
    decreases |removed|
  {
    if removed == [] {
      assert Exec(s, []) == Some(s);
    } else {
      var s1 := Apply(s, ReclaimNext(removed[0]));
      assert Removals(removed)[0] == ReclaimNext(removed[0]) && Removals(removed)[1..] == Removals(removed[1..]);
      PassReclaims(s1, removed[1..]);
      forall id
        ensures Removes(s.reclaim, removed, id)
                <==> (removed[0] && s.reclaim[0] == id) || Removes(s1.reclaim, removed[1..], id)
      {
        if i :| 0 <= i < |removed| && removed[i] && s.reclaim[i] == id {
          if 0 < i {
            assert removed[1..][i - 1] && s1.reclaim[i - 1] == id;
          }
        }
        if i :| 0 <= i < |removed[1..]| && removed[1..][i] && s1.reclaim[i] == id {
          assert removed[i + 1] && s.reclaim[i + 1] == id;
        }
      }
    }
  }

  /** A reclaim pass is given exactly the archived rows. */
  lemma ReclaimBegins(s: State, listing: seq<nat>)
    requires s.reclaim == [] && Lists(s.rows, listing, true)
    ensures Enabled(s, BeginReclaim(listing))
    ensures Apply(s, BeginReclaim(listing)).reclaim == listing
    ensures forall id :: id in listing <==> id in s.rows && s.rows[id].archiveId.Id?
  {
  }
}
