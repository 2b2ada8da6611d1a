/** The configuration object of one API, updated in place by the management service. */
module ApiRecord {
  import opened Common
  import opened ApiRevisions

  class Record {
    var live: Definition
    var revisions: map<string, Revision>
    var releases: map<string, Release>

    function View(): Api
      reads this
    {
      Api(live, revisions, releases)
    }

    /** `upsert_api` for a new API, with `_ensure_initial_api_revision` */
    constructor (identity: Identity, content: int)
      ensures View() == ApplyPutApi(None, identity, content)
    {
      var initial := Initial(Definition(identity.(versionDescription := None), content, NO_MARKS));
      live, revisions, releases := initial.live, initial.revisions, initial.releases;
      new;
      SyncRevision();
    }

    /** `_sync_current_revision_definitions` */
    method SyncRevision()
      modifies this
      ensures View() == Sync(old(View()))
    {
      if live.marks.revision.Some? {
        var id := live.marks.revision.value;
        if id != [] && id in revisions {
          revisions := revisions[id := revisions[id].(snapshot := Some(live))];
        }
      }
    }

    /** `_set_current_revision` */
    method MakeCurrent(id: string)
      requires id in revisions
      modifies this
      ensures View() == SetCurrent(old(View()), id)
    {
      var r := revisions[id];
      var d := if r.snapshot.Some? then r.snapshot.value else live;
      var todo := revisions.Keys;
      while todo != {}
        invariant todo <= revisions.Keys == old(revisions).Keys && live == old(live) && releases == old(releases)
        invariant forall k :: k in todo ==> revisions[k] == old(revisions)[k]
        invariant forall k :: k in revisions.Keys - todo ==> revisions[k] == Flag(old(revisions), id)[k]
        decreases todo
      {
        var k :| k in todo;
        todo := todo - {k};
        revisions := revisions[k := revisions[k].(current := Some(k == id))];
      }
      assert revisions == Flag(old(revisions), id);
      live := d.(marks := MarksOf(id, r));
    }

    /** `upsert_api` for an API that exists */
    method Update(identity: Identity, content: int)
      modifies this
      ensures View() == ApplyPutApi(Some(old(View())), identity, content)
    {
      live := Definition(identity.(versionDescription := live.identity.versionDescription), content, live.marks);
      SyncRevision();
    }

    /** `upsert_api_revision` */
    method PutRevision(op: Op) returns (ok: bool)
      requires op.PutRevision?
      modifies this
      ensures ok == ApplyPutRevision(old(View()), op).Some?
      ensures View() == if ok then ApplyPutRevision(old(View()), op).value else old(View())
    {
      var d := Written(View(), op.id, op.patch);
      if op.id == [] || !op.valid ||
         (live.marks.revision.Some? && live.marks.revision.value != op.id && d.identity != live.identity) {
        return false;
      }
      var e := Existing(View(), op.id);
      var current := Current(View(), op.id, op.current);
      revisions := revisions[op.id := Revision(Or(op.description, e.description), Some(current),
                                               Or(op.online, Or(e.online, Some(true))), Or(op.source, e.source), Some(d))];
      if current {
        MakeCurrent(op.id);
      }
      SyncRevision();
      return true;
    }

    /** `delete_api_revision` */
    method DropRevision(id: string) returns (ok: bool)
      modifies this
      ensures ok == ApplyDropRevision(old(View()), id).Some?
      ensures View() == if ok then ApplyDropRevision(old(View()), id).value else old(View())
    {
      if id !in revisions || revisions[id].current == Some(true) || live.marks.revision == Some(id) {
        return false;
      }
      var names := releases.Keys;
      while names != {}
        invariant names <= releases.Keys && View() == old(View())
        invariant forall n :: n in releases.Keys - names ==> releases[n].revision != id
        decreases names
      {
        var n :| n in names;
        if releases[n].revision == id {
          return false;
        }
        names := names - {n};
      }
      revisions := revisions - {id};
      SyncRevision();
      return true;
    }

    /** `upsert_api_release` */
    method PutRelease(name: string, revision: string, notes: Option<string>) returns (ok: bool)
      modifies this
      ensures ok == ApplyPutRelease(old(View()), name, revision, notes).Some?
      ensures View() == if ok then ApplyPutRelease(old(View()), name, revision, notes).value else old(View())
    {
      if revision !in revisions {
        return false;
      }
      var before := if name in releases then releases[name].notes else None;
      releases := releases[name := Release(Or(notes, before), revision)];
      MakeCurrent(revision);
      SyncRevision();
      return true;
    }

    /** `delete_api_release` */
    method DropRelease(name: string) returns (ok: bool)
      modifies this
      ensures ok == ApplyDropRelease(old(View()), name).Some?
      ensures View() == if ok then ApplyDropRelease(old(View()), name).value else old(View())
    {
      if name !in releases {
        return false;
      }
      releases := releases - {name};
      SyncRevision();
      return true;
    }
  }
}
