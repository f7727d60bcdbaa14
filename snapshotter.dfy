/** The first loop of Execute: fetch each listed template from the source account,
    pick its first active version and write it into the run's snapshot directory
    under the template's name. */
module Snapshotter {
  import opened Common
  import opened TemplatesModel
  import opened SendGridService

  /** The run's snapshot directory: one stored version per file name. A directory
      left by an earlier run in the same minute may already hold files. */
  class SnapshotStore {
    var files: map<string, Version>

    /** Directory.GetFiles: every file once, in an unspecified order. */
    method ListFiles() returns (names: seq<string>)
      ensures NoDuplicates(names)
      ensures forall n :: n in names <==> n in files
    {
      names := Enumerate(files.Keys);
    }
  }

  /** `First(v => v.Active == 1)`: the position of the first active version, if any. */
  function FirstActiveIndex(versions: seq<Version>): (r: Option<nat>)
    ensures r.Some? ==> r.value < |versions| && versions[r.value].active == 1
    ensures r.Some? ==> forall j :: 0 <= j < r.value ==> versions[j].active != 1
    ensures r.None? <==> forall j :: 0 <= j < |versions| ==> versions[j].active != 1
    decreases |versions|
  {
    if versions == [] then None
    else if versions[0].active == 1 then Some(0)
    else
      match FirstActiveIndex(versions[1..])
      case None => None
      case Some(i) => Some(i + 1)
  }

  /** The version one listed template contributes to the snapshot, or why it cannot. */
  function SnapshotOf(source: map<Id, Template>, item: Template): Result<Version, Error>
  {
    if item.id !in source then Err(TemplateNotFound(item.id))
    else
      var versions := source[item.id].versions;
      match FirstActiveIndex(versions)
      case None => Err(NoActiveVersion(item.name))
      case Some(i) => Ok(versions[i])
  }

  /** The directory after the snapshot loop, and the error that stopped it, if any. */
  datatype Saved = Saved(files: map<string, Version>, failure: Option<Error>)

  /** The listed names, as a set. */
  ghost function Names(items: seq<Template>): set<string>
  {
    set i | 0 <= i < |items| :: items[i].name
  }

  /** The snapshot loop on values: templates in list order, each write replacing any
      earlier file of the same name, stopping at the first template that fails. */
  function SaveAll(source: map<Id, Template>, items: seq<Template>, files: map<string, Version>): (r: Saved)
    ensures r.failure.None? ==> r.files.Keys == files.Keys + Names(items)
    ensures files.Keys <= r.files.Keys
    decreases |items|
  {
    if items == [] then Saved(files, None)
    else
      match SnapshotOf(source, items[0])
      case Err(e) => Saved(files, Some(e))
      case Ok(v) =>
        var rest := SaveAll(source, items[1..], files[items[0].name := v]);
        assert rest.failure.None? ==> Names(items) == {items[0].name} + Names(items[1..]) by {
          if rest.failure.None? {
            forall n | n in Names(items) ensures n in {items[0].name} + Names(items[1..]) {
              var i :| 0 <= i < |items| && items[i].name == n;
              if i > 0 { assert items[1..][i - 1].name == n; }
            }
          }
        }
        rest
  }

  /** The snapshot phase completes exactly when every listed template exists in the
      source and has an active version. */
  lemma {:induction false} SaveAllSucceedsIff(source: map<Id, Template>, items: seq<Template>, files: map<string, Version>)
    ensures SaveAll(source, items, files).failure.None? <==>
            forall i :: 0 <= i < |items| ==> SnapshotOf(source, items[i]).Ok?
    decreases |items|
  {
    if items != [] && SnapshotOf(source, items[0]).Ok? {
      SaveAllSucceedsIff(source, items[1..], files[items[0].name := SnapshotOf(source, items[0]).value]);
      assert forall i :: 1 <= i < |items| ==> items[i] == items[1..][i - 1];
    }
  }

  /** A template that fails aborts the phase there: the directory holds exactly what
      the templates before it wrote, and the error is that template's. */
  lemma {:induction false} SaveAllStopsAtFirstFailure(source: map<Id, Template>, items: seq<Template>, files: map<string, Version>, i: nat)
    requires i < |items| && SnapshotOf(source, items[i]).Err?
    requires forall j :: 0 <= j < i ==> SnapshotOf(source, items[j]).Ok?
    ensures SaveAll(source, items[..i], files).failure.None?
    ensures SaveAll(source, items, files) ==
            Saved(SaveAll(source, items[..i], files).files, Some(SnapshotOf(source, items[i]).error))
    decreases i
  {
    if i > 0 {
      var v := SnapshotOf(source, items[0]).value;
      assert items[..i][0] == items[0];
      assert items[..i][1..] == items[1..][..i - 1];
      assert forall j :: 0 <= j < i - 1 ==> items[1..][j] == items[j + 1];
      SaveAllStopsAtFirstFailure(source, items[1..], files[items[0].name := v], i - 1);
    }
  }

  /** Files whose name no listed template has are left as they were, whether the
      phase completes or not. */
  lemma {:induction false} SaveAllKeepsOtherFiles(source: map<Id, Template>, items: seq<Template>, files: map<string, Version>, name: string)
    requires name in files
    requires forall i :: 0 <= i < |items| ==> items[i].name != name
    ensures name in SaveAll(source, items, files).files
    ensures SaveAll(source, items, files).files[name] == files[name]
    decreases |items|
  {
    if items != [] && SnapshotOf(source, items[0]).Ok? {
      assert forall i :: 0 <= i < |items[1..]| ==> items[1..][i] == items[i + 1];
      SaveAllKeepsOtherFiles(source, items[1..], files[items[0].name := SnapshotOf(source, items[0]).value], name);
    }
  }

  /** After a completed phase, the file named after a template holds the active
      version of the LAST listed template with that name: a later template of the
      same name overwrites an earlier one. */
  lemma {:induction false} SavedFileIsLastActiveVersion(source: map<Id, Template>, items: seq<Template>, files: map<string, Version>, i: nat)
    requires SaveAll(source, items, files).failure.None?
    requires i < |items|
    requires forall j :: i < j < |items| ==> items[j].name != items[i].name
    ensures SnapshotOf(source, items[i]).Ok?
    ensures items[i].name in SaveAll(source, items, files).files
    ensures SaveAll(source, items, files).files[items[i].name] == SnapshotOf(source, items[i]).value
    decreases |items|
  {
    var v := SnapshotOf(source, items[0]).value;
    var next := files[items[0].name := v];
    assert forall j :: 0 <= j < |items[1..]| ==> items[1..][j] == items[j + 1];
    if i == 0 {
      SaveAllKeepsOtherFiles(source, items[1..], next, items[0].name);
    } else {
      SavedFileIsLastActiveVersion(source, items[1..], next, i - 1);
    }
  }

  /** The first loop of Execute, writing into `store`. */
  method SaveSnapshots(source: Account, items: seq<Template>, store: SnapshotStore) returns (failure: Option<Error>)
    modifies store
    ensures Saved(store.files, failure) == SaveAll(source.templates, items, old(store.files))
  {
    var i := 0;
    while i < |items|
      invariant 0 <= i <= |items|
      invariant SaveAll(source.templates, items[i..], store.files) == SaveAll(source.templates, items, old(store.files))
    {
      var item := items[i];
      assert items[i..][0] == item && items[i..][1..] == items[i + 1..];
      // GET templates/{id}
      if item.id !in source.templates {
        return Some(TemplateNotFound(item.id));
      }
      var template := source.templates[item.id];
      var active := FirstActiveIndex(template.versions);
      if active.None? {
        return Some(NoActiveVersion(item.name));
      }
      store.files := store.files[item.name := template.versions[active.value]];
      i := i + 1;
    }
    failure := None;
  }
}
