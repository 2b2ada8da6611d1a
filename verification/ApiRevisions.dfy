/**
 Revisions and releases of an API that the management service created: each revision owns a
 snapshot of the API's definition, one revision is current, and a release promotes one.
 */
module ApiRevisions {
  import opened Common

  /** The fields a non-current revision may not change. */
  datatype Identity = Identity(
    name: string, path: string, protocols: seq<string>, version: Option<string>, versionDescription: Option<string>)

  /** The revision fields of a definition. */
  datatype Marks = Marks(
    revision: Option<string>, description: Option<string>, source: Option<string>, current: Option<bool>, online: Option<bool>)

  /** A routable definition; `content` stands for all its other fields. */
  datatype Definition = Definition(identity: Identity, content: int, marks: Marks)

  datatype Revision = Revision(
    description: Option<string>, current: Option<bool>, online: Option<bool>, source: Option<string>, snapshot: Option<Definition>)

  datatype Release = Release(notes: Option<string>, revision: string)

  /** The published definition, its revisions and its releases. */
  datatype Api = Api(live: Definition, revisions: map<string, Revision>, releases: map<string, Release>)

  const NO_MARKS := Marks(None, None, None, None, None)

  // ----- The steps of the service -----

  /** `_ensure_initial_api_revision` for an API without revisions */
  function Initial(live: Definition): Api {
    var id := if live.marks.revision.Some? && live.marks.revision.value != [] then live.marks.revision.value else "1";
    var online := if live.marks.online.None? then Some(true) else live.marks.online;
    var d := live.(marks := live.marks.(revision := Some(id), current := Some(true), online := online));
    Api(d, map[id := Revision(d.marks.description, Some(true), online, d.marks.source, Some(d))], map[])
  }

  /** `_sync_current_revision_definitions` */
  function Sync(a: Api): Api {
    match a.live.marks.revision
    case Some(id) =>
      if id != [] && id in a.revisions
      then a.(revisions := a.revisions[id := a.revisions[id].(snapshot := Some(a.live))]) else a
    case None => a
  }

  function MarksOf(id: string, r: Revision): Marks {
    Marks(Some(id), r.description, r.source, Some(true), r.online)
  }

  /** `_set_current_revision` */
  function SetCurrent(a: Api, id: string): Api
    requires id in a.revisions
  {
    var r := a.revisions[id];
    var d := if r.snapshot.Some? then r.snapshot.value else a.live;
    Api(d.(marks := MarksOf(id, r)), Flag(a.revisions, id), a.releases)
  }

  function Flag(revisions: map<string, Revision>, id: string): map<string, Revision> {
    map k | k in revisions :: revisions[k].(current := Some(k == id))
  }

  // ----- The operations -----

  /** What a revision write may overlay on the stored definition. */
  datatype Patch = Patch(identity: Option<Identity>, content: Option<int>, marks: Option<Marks>)

  function Or<T>(a: Option<T>, b: Option<T>): Option<T> {
    if a.Some? then a else b
  }

  function Overlay(d: Definition, p: Patch): Definition {
    Definition(Or(p.identity, Some(d.identity)).value, Or(p.content, Some(d.content)).value, Or(p.marks, Some(d.marks)).value)
  }

  /** `valid` and `published` are the verdicts of validation and of publishing the configuration. */
  datatype Op =
    | PutApi(identity: Identity, content: int, published: bool)
    | DropApi(published: bool)
    | PutRevision(id: string, description: Option<string>, current: Option<bool>, online: Option<bool>, source: Option<string>,
                  patch: Patch, valid: bool, published: bool)
    | DropRevision(id: string, published: bool)
    | PutRelease(name: string, revision: string, notes: Option<string>, published: bool)
    | DropRelease(name: string, published: bool)

  /** `upsert_api` */
  function ApplyPutApi(api: Option<Api>, identity: Identity, content: int): Api {
    match api
    case None => Sync(Initial(Definition(identity.(versionDescription := None), content, NO_MARKS)))
    case Some(a) =>
      Sync(a.(live := Definition(identity.(versionDescription := a.live.identity.versionDescription), content, a.live.marks)))
  }

  /** The definition a revision write would store. */
  function Written(a: Api, id: string, patch: Patch): Definition {
    var base := if id in a.revisions && a.revisions[id].snapshot.Some? then a.revisions[id].snapshot.value else a.live;
    Overlay(base, patch)
  }

  function Existing(a: Api, id: string): Revision {
    if id in a.revisions then a.revisions[id] else Revision(None, None, None, None, None)
  }

  /** Whether a revision write leaves its revision current. */
  predicate Current(a: Api, id: string, current: Option<bool>) {
    Or(current, Or(Existing(a, id).current, Some(a.live.marks.revision == Some(id)))).value
  }

  /** `upsert_api_revision`; None is an error answer. No route carries an empty revision id. */
  function ApplyPutRevision(a: Api, op: Op): Option<Api>
    requires op.PutRevision?
  {
    var d := Written(a, op.id, op.patch);
    if op.id == [] then None
    else if a.live.marks.revision.Some? && a.live.marks.revision.value != op.id && d.identity != a.live.identity then None
    else if !op.valid then None
    else
      var e := Existing(a, op.id);
      var current := Current(a, op.id, op.current);
      var r := Revision(Or(op.description, e.description), Some(current), Or(op.online, Or(e.online, Some(true))),
                        Or(op.source, e.source), Some(d));
      var b := a.(revisions := a.revisions[op.id := r]);
      Some(Sync(if current then SetCurrent(b, op.id) else b))
  }

  /** `delete_api_revision` */
  function ApplyDropRevision(a: Api, id: string): Option<Api> {
    if id !in a.revisions || a.revisions[id].current == Some(true) || a.live.marks.revision == Some(id) then None
    else if exists n :: n in a.releases && a.releases[n].revision == id then None
    else Some(Sync(a.(revisions := a.revisions - {id})))
  }

  /** `upsert_api_release` */
  function ApplyPutRelease(a: Api, name: string, revision: string, notes: Option<string>): Option<Api> {
    if revision !in a.revisions then None
    else
      var before := if name in a.releases then a.releases[name].notes else None;
      var b := a.(releases := a.releases[name := Release(Or(notes, before), revision)]);
      Some(Sync(SetCurrent(b, revision)))
  }

  /** `delete_api_release` */
  function ApplyDropRelease(a: Api, name: string): Option<Api> {
    if name !in a.releases then None else Some(Sync(a.(releases := a.releases - {name})))
  }

  /** The outcome of an operation on the configuration, before it is published; None is an error answer. */
  function Attempt(api: Option<Api>, op: Op): Option<Option<Api>> {
    match (api, op)
    case (_, PutApi(identity, content, _)) => Some(Some(ApplyPutApi(api, identity, content)))
    case (None, _) => None
    case (Some(_), DropApi(_)) => Some(None)
    case (Some(a), PutRevision(_, _, _, _, _, _, _, _)) => Done(ApplyPutRevision(a, op))
    case (Some(a), DropRevision(id, _)) => Done(ApplyDropRevision(a, id))
    case (Some(a), PutRelease(name, revision, notes, _)) => Done(ApplyPutRelease(a, name, revision, notes))
    case (Some(a), DropRelease(name, _)) => Done(ApplyDropRelease(a, name))
  }

  function Done(r: Option<Api>): Option<Option<Api>> {
    if r.Some? then Some(r) else None
  }

  /** A failed or unpublished write changes nothing. */
  function Step(api: Option<Api>, op: Op): Option<Api> {
    match Attempt(api, op)
    case Some(result) => if op.published then result else api
    case None => api
  }

  function Run(ops: seq<Op>): Option<Api> {
    if ops == [] then None else Step(Run(ops[..|ops| - 1]), ops[|ops| - 1])
  }

  // ----- What every write keeps -----

  ghost predicate Coherent(a: Api) {
    && a.live.marks.revision.Some?
    && var id := a.live.marks.revision.value;
       && id in a.revisions && [] !in a.revisions
       && (forall k :: k in a.revisions && a.revisions[k].current == Some(true) ==> k == id)
       && a.revisions[id].snapshot == Some(a.live)
       && (forall n :: n in a.releases ==> a.releases[n].revision in a.revisions)
  }

  /** Everything but the snapshot; syncing supplies that. */
  ghost predicate AlmostCoherent(a: Api) {
    && a.live.marks.revision.Some?
    && var id := a.live.marks.revision.value;
       && id in a.revisions && [] !in a.revisions
       && (forall k :: k in a.revisions && a.revisions[k].current == Some(true) ==> k == id)
       && (forall n :: n in a.releases ==> a.releases[n].revision in a.revisions)
  }

  lemma {:induction false} SyncCompletes(a: Api)
    requires AlmostCoherent(a)
    ensures Coherent(Sync(a)) && Sync(a).live == a.live && Sync(a).releases == a.releases && Sync(a).revisions.Keys == a.revisions.Keys
  {
  }

  lemma {:induction false} SetCurrentKeeps(a: Api, id: string)
    requires id in a.revisions && [] !in a.revisions
    requires forall n :: n in a.releases ==> a.releases[n].revision in a.revisions
    ensures AlmostCoherent(SetCurrent(a, id))
  {
  }

  lemma {:induction false} StepKeeps(api: Option<Api>, op: Op)
    requires api.Some? ==> Coherent(api.value)
    ensures Step(api, op).Some? ==> Coherent(Step(api, op).value)
  {
    hide Sync, SetCurrent;
    match op
    case PutApi(identity, content, _) =>
      match api {
        case None => SyncCompletes(Initial(Definition(identity.(versionDescription := None), content, NO_MARKS)));
        case Some(a) =>
          var id' := identity.(versionDescription := a.live.identity.versionDescription);
          SyncCompletes(a.(live := Definition(id', content, a.live.marks)));
      }
    case DropApi(_) =>
    case PutRevision(_, _, _, _, _, _, _, _) => if api.Some? { PutRevisionKeeps(api.value, op); }
    case DropRevision(id, _) => if api.Some? { DropRevisionKeeps(api.value, id); }
    case PutRelease(name, revision, notes, _) => if api.Some? { PutReleaseKeeps(api.value, name, revision, notes); }
    case DropRelease(name, _) =>
      if api.Some? { SyncCompletes(api.value.(releases := api.value.releases - {name})); }
  }

  lemma {:induction false} PutRevisionKeeps(a: Api, op: Op)
    requires Coherent(a) && op.PutRevision?
    ensures ApplyPutRevision(a, op).Some? ==> Coherent(ApplyPutRevision(a, op).value)
  {
    hide Sync, SetCurrent;
    if ApplyPutRevision(a, op).Some? {
      var e, current := Existing(a, op.id), Current(a, op.id, op.current);
      var r := Revision(Or(op.description, e.description), Some(current), Or(op.online, Or(e.online, Some(true))),
                        Or(op.source, e.source), Some(Written(a, op.id, op.patch)));
      var b := a.(revisions := a.revisions[op.id := r]);
      if current {
        SetCurrentKeeps(b, op.id);
        SyncCompletes(SetCurrent(b, op.id));
      } else {
        SyncCompletes(b);
      }
    }
  }

  lemma {:induction false} DropRevisionKeeps(a: Api, id: string)
    requires Coherent(a)
    ensures ApplyDropRevision(a, id).Some? ==> Coherent(ApplyDropRevision(a, id).value)
  {
    if ApplyDropRevision(a, id).Some? {
      SyncCompletes(a.(revisions := a.revisions - {id}));
    }
  }

  lemma {:induction false} PutReleaseKeeps(a: Api, name: string, revision: string, notes: Option<string>)
    requires Coherent(a)
    ensures var r := ApplyPutRelease(a, name, revision, notes); r.Some? ==> Coherent(r.value)
  {
    if revision in a.revisions {
      var before := if name in a.releases then a.releases[name].notes else None;
      var b := a.(releases := a.releases[name := Release(Or(notes, before), revision)]);
      SetCurrentKeeps(b, revision);
      SyncCompletes(SetCurrent(b, revision));
    }
  }

  /**
   After every sequence of writes, failed ones included: the API names an existing revision,
   no other revision is flagged current, its snapshot is the live definition, and every
   release names an existing revision.
   */
  lemma {:induction false} RunCoherent(ops: seq<Op>)
    ensures Run(ops).Some? ==> Coherent(Run(ops).value)
  {
    if ops != [] {
      RunCoherent(ops[..|ops| - 1]);
      StepKeeps(Run(ops[..|ops| - 1]), ops[|ops| - 1]);
    }
  }

  // ----- What promotion and revision writes publish -----

  /**
   A release publishes what its revision has stored, under the revision's name and marked as
   current, makes that the stored definition, and leaves what the other revisions have stored.
   */
  lemma {:induction false} ReleasePublishesSnapshot(a: Api, name: string, revision: string, notes: Option<string>)
    requires Coherent(a) && revision in a.revisions && a.revisions[revision].snapshot.Some?
    ensures var r, b := a.revisions[revision], ApplyPutRelease(a, name, revision, notes).value;
            && b.live.identity == r.snapshot.value.identity && b.live.content == r.snapshot.value.content
            && b.live.marks.revision == Some(revision) && b.live.marks.current == Some(true) && b.live.marks.online == r.online
            && b.live.marks.description == r.description && b.live.marks.source == r.source
            && b.revisions[revision].snapshot == Some(b.live)
            && forall k :: k in a.revisions && k != revision ==>
                 k in b.revisions && b.revisions[k].snapshot == a.revisions[k].snapshot
  {
  }

  /**
   Releasing another revision and then the old one again brings the old definition back:
   nothing of it is lost while it is not current.
   */
  lemma {:induction false} ReleaseRoundTrip(a: Api, first: string, other: string, m: string, n: string, notes: Option<string>)
    requires Coherent(a) && a.live.marks.revision == Some(first)
    requires other in a.revisions && other != first && a.revisions[other].snapshot.Some?
    ensures var b := ApplyPutRelease(a, m, other, notes).value;
            ApplyPutRelease(b, n, first, notes).Some? &&
            var c := ApplyPutRelease(b, n, first, notes).value;
            && c.live == a.live.(marks := MarksOf(first, a.revisions[first]))
            && c.revisions[other].snapshot == Some(b.live)
  {
    var b := ApplyPutRelease(a, m, other, notes).value;
    ReleasePublishesSnapshot(a, m, other, notes);
    PutReleaseKeeps(a, m, other, notes);
    ReleasePublishesSnapshot(b, n, first, notes);
  }

  /**
   What a successful revision write stores: the definition it was given, on top of what the
   revision has stored or else of the live one, unless it is for the current revision and says
   that it is not current; then the edit is dropped and the snapshot stays the live definition.
   */
  lemma {:induction false} RevisionWriteStores(a: Api, op: Op)
    requires Coherent(a) && op.PutRevision? && ApplyPutRevision(a, op).Some?
    ensures var b := ApplyPutRevision(a, op).value;
            var known := op.id in a.revisions;
            var base := if known && a.revisions[op.id].snapshot.Some? then a.revisions[op.id].snapshot.value else a.live;
            var identity := if op.patch.identity.Some? then op.patch.identity.value else base.identity;
            var content := if op.patch.content.Some? then op.patch.content.value else base.content;
            var flagged := if op.current.Some? then op.current.value
                           else if known && a.revisions[op.id].current.Some? then a.revisions[op.id].current.value
                           else a.live.marks.revision == Some(op.id);
            op.id in b.revisions && b.revisions[op.id].snapshot.Some? &&
            var s := b.revisions[op.id].snapshot.value;
            && (a.live.marks.revision == Some(op.id) && !flagged ==> s == a.live && b.live == a.live)
            && (a.live.marks.revision != Some(op.id) || flagged ==> s.identity == identity && s.content == content)
            && (b.live.marks.revision == Some(op.id) <==> flagged || a.live.marks.revision == Some(op.id))
            && (!flagged ==> b.live == a.live)
            && (s.identity == identity && s.content == content
                <==> a.live.marks.revision != Some(op.id) || flagged || (identity == a.live.identity && content == a.live.content))
  {
  }

  /** What else it does: the releases and everything the other revisions have stored stay as they were. */
  lemma {:induction false} RevisionWriteKeeps(a: Api, op: Op)
    requires Coherent(a) && op.PutRevision? && ApplyPutRevision(a, op).Some?
    ensures var b := ApplyPutRevision(a, op).value;
            && b.revisions.Keys == a.revisions.Keys + {op.id} && b.releases == a.releases
            && forall k :: k in a.revisions && k != op.id ==>
                  && b.revisions[k].snapshot == a.revisions[k].snapshot && b.revisions[k].description == a.revisions[k].description
                  && b.revisions[k].online == a.revisions[k].online && b.revisions[k].source == a.revisions[k].source
  {
    hide Written, Current, Sync, SetCurrent;
    var e, current := Existing(a, op.id), Current(a, op.id, op.current);
    var n := Revision(Or(op.description, e.description), Some(current), Or(op.online, Or(e.online, Some(true))),
                      Or(op.source, e.source), Some(Written(a, op.id, op.patch)));
    var b := a.(revisions := a.revisions[op.id := n]);
    Settled(b, op.id);
    Settled(if current then SetCurrent(b, op.id) else b, op.id);
    forall k | k in a.revisions && k != op.id
      ensures ApplyPutRevision(a, op).value.revisions[k].snapshot == a.revisions[k].snapshot
      ensures ApplyPutRevision(a, op).value.revisions[k].description == a.revisions[k].description
      ensures ApplyPutRevision(a, op).value.revisions[k].online == a.revisions[k].online
      ensures ApplyPutRevision(a, op).value.revisions[k].source == a.revisions[k].source
    {
      SettledFields(b, op.id, k);
      SettledFields(if current then SetCurrent(b, op.id) else b, op.id, k);
    }
  }

  /** Syncing and promoting change no set of revisions and no release, and sync only the snapshot of the live revision. */
  lemma {:induction false} Settled(a: Api, id: string)
    requires id in a.revisions
    ensures Sync(a).revisions.Keys == SetCurrent(a, id).revisions.Keys == a.revisions.Keys
    ensures Sync(a).releases == SetCurrent(a, id).releases == a.releases
    ensures SetCurrent(a, id).live.marks.revision == Some(id)
  {
  }

  /** Fields of the revision itself that are not given stay as they were; a new revision is online. */
  lemma {:induction false} RevisionWriteFields(a: Api, op: Op)
    requires Coherent(a) && op.PutRevision? && ApplyPutRevision(a, op).Some?
    ensures var b, known := ApplyPutRevision(a, op).value, op.id in a.revisions;
            op.id in b.revisions &&
            var n := b.revisions[op.id];
            && n.description == (if op.description.Some? then op.description else if known then a.revisions[op.id].description else None)
            && n.source == (if op.source.Some? then op.source else if known then a.revisions[op.id].source else None)
            && n.online == (if op.online.Some? then op.online
                            else if known && a.revisions[op.id].online.Some? then a.revisions[op.id].online else Some(true))
  {
    hide Written, Current, Sync, SetCurrent;
    var e, current := Existing(a, op.id), Current(a, op.id, op.current);
    var n := Revision(Or(op.description, e.description), Some(current), Or(op.online, Or(e.online, Some(true))),
                      Or(op.source, e.source), Some(Written(a, op.id, op.patch)));
    var b := a.(revisions := a.revisions[op.id := n]);
    SettledFields(b, op.id, op.id);
    SettledFields(if current then SetCurrent(b, op.id) else b, op.id, op.id);
  }

  lemma {:induction false} SettledFields(a: Api, id: string, k: string)
    requires id in a.revisions && k in a.revisions
    ensures k in Sync(a).revisions && k in SetCurrent(a, id).revisions
    ensures var n, s, c := a.revisions[k], Sync(a).revisions[k], SetCurrent(a, id).revisions[k];
            && s.description == c.description == n.description && s.online == c.online == n.online
            && s.source == c.source == n.source && c.snapshot == n.snapshot
            && (a.live.marks.revision != Some(k) || n.snapshot == Some(a.live) ==> s.snapshot == n.snapshot)
  {
  }

  /** A revision write is refused exactly for an empty id, a definition that is not valid, or an identity other than the live one on a revision that is not current. */
  lemma {:induction false} RevisionWriteRefused(a: Api, op: Op)
    requires Coherent(a) && op.PutRevision?
    ensures var base := if op.id in a.revisions && a.revisions[op.id].snapshot.Some? then a.revisions[op.id].snapshot.value else a.live;
            var identity := if op.patch.identity.Some? then op.patch.identity.value else base.identity;
            ApplyPutRevision(a, op).None?
            <==> op.id == [] || !op.valid || (a.live.marks.revision != Some(op.id) && identity != a.live.identity)
  {
  }

  /** A new API starts with revision 1, current and online, that has stored the given definition. */
  lemma {:induction false} CreateMakesLive(identity: Identity, content: int)
    ensures var b := ApplyPutApi(None, identity, content);
            && b.live.content == content && b.live.identity == identity.(versionDescription := None)
            && b.live.marks.revision == Some("1") && b.live.marks.current == Some(true) && b.live.marks.online == Some(true)
            && b.revisions.Keys == {"1"} && b.revisions["1"].current == Some(true) && b.revisions["1"].online == Some(true)
            && b.revisions["1"].snapshot == Some(b.live) && b.releases == map[]
  {
  }

  /** An update makes the given definition live and stored for the current revision; the rest stays. */
  lemma {:induction false} UpdateMakesLive(a: Api, identity: Identity, content: int)
    requires Coherent(a)
    ensures var b := ApplyPutApi(Some(a), identity, content);
            var id := a.live.marks.revision.value;
            && b.live.content == content && b.live.identity == identity.(versionDescription := a.live.identity.versionDescription)
            && b.live.marks == a.live.marks && b.releases == a.releases && b.revisions.Keys == a.revisions.Keys
            && b.revisions[id] == a.revisions[id].(snapshot := Some(b.live))
            && forall k :: k in a.revisions && k != id ==> b.revisions[k] == a.revisions[k]
  {
  }

  /** A release is recorded under its name, with the notes given or else those it had, exactly when its revision exists. */
  lemma {:induction false} ReleaseRecorded(a: Api, name: string, revision: string, notes: Option<string>)
    ensures var after := ApplyPutRelease(a, name, revision, notes);
            && (after.Some? <==> revision in a.revisions)
            && (after.Some? ==>
                  && after.value.releases.Keys == a.releases.Keys + {name}
                  && after.value.releases[name].revision == revision
                  && after.value.releases[name].notes
                     == (if notes.Some? then notes else if name in a.releases then a.releases[name].notes else None)
                  && forall n :: n in a.releases && n != name ==> after.value.releases[n] == a.releases[n])
  {
  }

  /** A deleted release is gone, and nothing else changes. */
  lemma {:induction false} ReleaseDropped(a: Api, name: string)
    requires Coherent(a)
    ensures var after := ApplyDropRelease(a, name);
            && (after.Some? <==> name in a.releases)
            && (after.Some? ==>
                  && after.value.releases.Keys == a.releases.Keys - {name} && after.value.live == a.live && after.value.revisions == a.revisions
                  && forall n :: n in a.releases && n != name ==> after.value.releases[n] == a.releases[n])
  {
    var id := a.live.marks.revision.value;
    assert a.revisions[id := a.revisions[id].(snapshot := Some(a.live))] == a.revisions;
  }

  /** A revision can be deleted exactly if it exists, is not current and no release names it; then it is gone, and nothing else changes. */
  lemma {:induction false} RevisionDropped(a: Api, id: string)
    requires Coherent(a)
    ensures var after := ApplyDropRevision(a, id);
            && (after.Some? <==> id in a.revisions && a.live.marks.revision != Some(id)
                                 && forall n :: n in a.releases ==> a.releases[n].revision != id)
            && (after.Some? ==>
                  && after.value.revisions.Keys == a.revisions.Keys - {id} && after.value.live == a.live && after.value.releases == a.releases
                  && forall k :: k in a.revisions && k != id ==> after.value.revisions[k] == a.revisions[k])
  {
  }

  /** A write that is refused or not published changes nothing, and an API that does not exist can only be created. */
  lemma {:induction false} FailureChangesNothing(api: Option<Api>, op: Op)
    ensures !op.published ==> Step(api, op) == api
    ensures api.None? && !op.PutApi? ==> Step(api, op) == None
    ensures api.Some? && op.DropApi? && op.published ==> Step(api, op) == None
  {
  }

  /** A run that loses an edit: the write of content 2 succeeds, and content 1 stays. */
  lemma {:induction false} EditLost(identity: Identity)
    ensures var edit := PutRevision("1", None, Some(false), None, None, Patch(None, Some(2), None), true, true);
            var before, after := Run([PutApi(identity, 1, true)]), Run([PutApi(identity, 1, true), edit]);
            && before.Some? && ApplyPutRevision(before.value, edit) == after
            && Written(before.value, "1", edit.patch).content == 2
            && after.Some? && after.value.live.content == 1 && "1" in after.value.revisions
            && after.value.revisions["1"].snapshot == Some(after.value.live)
  {
    var create := PutApi(identity, 1, true);
    var edit := PutRevision("1", None, Some(false), None, None, Patch(None, Some(2), None), true, true);
    assert [create][..0] == [] && [create, edit][..1] == [create];
    RunCoherent([create]);
    assert Attempt(None, create) == Some(Some(ApplyPutApi(None, identity, 1)));
    assert Run([create]) == Step(Run([]), create) == Some(ApplyPutApi(None, identity, 1));
    var a := ApplyPutApi(None, identity, 1);
    assert a == Sync(Initial(Definition(identity.(versionDescription := None), 1, NO_MARKS)));
    assert a.live.content == 1 && a.live.marks.revision == Some("1");
    RevisionWriteStores(a, edit);
  }
}
