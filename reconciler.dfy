/** The second loop of Execute: for each snapshot file, find the target template of
    that name in one listing taken before the loop (creating it when there is none),
    post the stored version under the name "<version name>-<runId>", and record
    the version's original name with the target template id. */
module Reconciler {
  import opened Common
  import opened TemplatesModel
  import opened SendGridService

  /** One entry of the output list: the stored version's original name and the
      target template it was attached to. */
  datatype OutputLine = OutputLine(reference: string, templateId: Id)

  /** The name a snapshot version gets in the target: "<reference>-<runId>". */
  function VersionName(reference: string, runId: string): string
  {
    reference + "-" + runId
  }

  /** The inverse of VersionName: the reference, when `name` ends in "-<runId>". */
  function ReferenceOf(name: string, runId: string): Option<string>
  {
    var n := |runId| + 1;
    if n <= |name| && name[|name| - n..] == "-" + runId then Some(name[..|name| - n]) else None
  }

  lemma ReferenceOfVersionName(reference: string, runId: string)
    ensures ReferenceOf(VersionName(reference, runId), runId) == Some(reference)
  {
    var name := VersionName(reference, runId);
    assert name[|name| - (|runId| + 1)..] == "-" + runId;
    assert name[..|name| - (|runId| + 1)] == reference;
  }

  lemma VersionNameOfReference(name: string, runId: string)
    requires ReferenceOf(name, runId).Some?
    ensures VersionName(ReferenceOf(name, runId).value, runId) == name
  {
    var k := |name| - (|runId| + 1);
    assert name == name[..k] + name[k..];
  }

  /** The payload posted for a stored version: the same record, renamed. */
  function Renamed(stored: Version, runId: string): Version
  {
    stored.(name := VersionName(stored.name, runId))
  }

  /** `v` is the stored version as the target keeps it: equal in every field except
      the ids the service assigns and the name, which carries the run id. */
  predicate Carries(v: Version, stored: Version, runId: string)
  {
    v == stored.(id := v.id, templateId := v.templateId, name := VersionName(stored.name, runId))
  }

  /** A carried version keeps the stored html, plain text, subject and every other
      field but the ids, and its name gives the stored name back once the run id is
      stripped. */
  lemma CarriesKeepsContent(v: Version, stored: Version, runId: string)
    requires Carries(v, stored, runId)
    ensures v.htmlContent == stored.htmlContent && v.plainContent == stored.plainContent
    ensures v.subject == stored.subject && v.active == stored.active && v.updatedAt == stored.updatedAt
    ensures v.name == stored.name + "-" + runId
    ensures ReferenceOf(v.name, runId) == Some(stored.name)
  {
    ReferenceOfVersionName(stored.name, runId);
  }

  function HasName(name: string): Template -> bool
  {
    (t: Template) => t.name == name
  }

  /** The listed templates called `name` (what SingleOrDefault searches). */
  function Named(listing: seq<Template>, name: string): seq<Template>
  {
    Where(listing, HasName(name))
  }

  /** Every listed template is still in the catalog under the same name. */
  ghost predicate Covers(c: Catalog, listing: seq<Template>)
  {
    forall t :: t in listing ==> t.id in c.templates && c.templates[t.id].name == t.name
  }

  /** One file processed: the catalog after it, the POST count, and its line or error. */
  datatype Step = Step(catalog: Catalog, posts: nat, outcome: Result<OutputLine, Error>)

  /** POST the renamed version under `templateId`, using the reply numbered `posts`. */
  function PostVersionStep(c: Catalog, templateId: Id, stored: Version, runId: string,
                           replies: nat -> Response, posts: nat): (r: Step)
    requires templateId in c.templates
    ensures c.templates.Keys == r.catalog.templates.Keys
    ensures c.Valid() ==> r.catalog.Valid()
  {
    match EnsureSuccessStatusCode(replies(posts))
    case Fail(body) => Step(c, posts + 1, Err(ServiceError(body)))
    case Pass =>
      Step(AddVersion(c, templateId, Renamed(stored, runId)).0, posts + 1, Ok(OutputLine(stored.name, templateId)))
  }

  /** One iteration of the reconcile loop for the file `fileName`. */
  function ReconcileOne(c: Catalog, listing: seq<Template>, fileName: string, stored: Version,
                        runId: string, replies: nat -> Response, posts: nat): (r: Step)
    requires forall t :: t in listing ==> t.id in c.templates
    ensures c.templates.Keys <= r.catalog.templates.Keys
    ensures c.Valid() ==> r.catalog.Valid()
  {
    var matches := Named(listing, fileName);
    if |matches| > 1 then
      Step(c, posts, Err(AmbiguousName(fileName)))
    else if |matches| == 1 then
      WhereMembers(listing, HasName(fileName));
      PostVersionStep(c, matches[0].id, stored, runId, replies, posts)
    else
      match EnsureSuccessStatusCode(replies(posts))
      case Fail(body) => Step(c, posts + 1, Err(ServiceError(body)))
      case Pass =>
        var created := AddTemplate(c, fileName);
        PostVersionStep(created.0, created.1.id, stored, runId, replies, posts + 1)
  }

  /** The reconcile loop's result: the target catalog, the output lines of the files
      processed, the POSTs sent, and the error that stopped it, if any. */
  datatype Reconciled = Reconciled(catalog: Catalog, output: seq<OutputLine>, posts: nat, failure: Option<Error>)

  /** The reconcile loop on values, over the files in the order `order`. */
  function ReconcileAll(c: Catalog, listing: seq<Template>, files: map<string, Version>, order: seq<string>,
                        runId: string, replies: nat -> Response, posts: nat): (r: Reconciled)
    requires forall t :: t in listing ==> t.id in c.templates
    requires forall n :: n in order ==> n in files
    ensures c.templates.Keys <= r.catalog.templates.Keys
    ensures c.Valid() ==> r.catalog.Valid()
    ensures |r.output| <= |order|
    ensures r.failure.None? <==> |r.output| == |order|
    decreases |order|
  {
    if order == [] then Reconciled(c, [], posts, None)
    else
      var step := ReconcileOne(c, listing, order[0], files[order[0]], runId, replies, posts);
      match step.outcome
      case Err(e) => Reconciled(step.catalog, [], step.posts, Some(e))
      case Ok(line) =>
        var rest := ReconcileAll(step.catalog, listing, files, order[1..], runId, replies, step.posts);
        Reconciled(rest.catalog, [line] + rest.output, rest.posts, rest.failure)
  }

  /** What Execute ends with: the output list, or the error. */
  function Reported(r: Reconciled): Result<seq<OutputLine>, Error>
  {
    if r.failure.None? then Ok(r.output) else Err(r.failure.value)
  }

  /** `d` extends `c`: no template is removed or renamed and no version is removed. */
  ghost predicate Grows(c: Catalog, d: Catalog)
  {
    forall id :: id in c.templates ==>
      id in d.templates && d.templates[id].name == c.templates[id].name &&
      c.templates[id].versions <= d.templates[id].versions
  }

  /** A name SingleOrDefault finds several times stops the step before any request. */
  lemma StepRejectsAmbiguousName(c: Catalog, listing: seq<Template>, fileName: string, stored: Version,
                                 runId: string, replies: nat -> Response, posts: nat)
    requires forall t :: t in listing ==> t.id in c.templates
    requires |Named(listing, fileName)| > 1
    ensures ReconcileOne(c, listing, fileName, stored, runId, replies, posts) ==
            Step(c, posts, Err(AmbiguousName(fileName)))
  {
  }

  /** A step never removes or renames a template nor removes a version. */
  lemma StepGrows(c: Catalog, listing: seq<Template>, fileName: string, stored: Version,
                  runId: string, replies: nat -> Response, posts: nat)
    requires c.Valid() && Covers(c, listing)
    ensures Grows(c, ReconcileOne(c, listing, fileName, stored, runId, replies, posts).catalog)
  {
    if |Named(listing, fileName)| == 1 {
      WhereMembers(listing, HasName(fileName));
    }
  }

  /** Exactly one listed template of the file's name: it is reused, none is created. */
  lemma StepReusesShell(c: Catalog, listing: seq<Template>, fileName: string, stored: Version,
                        runId: string, replies: nat -> Response, posts: nat)
    requires forall t :: t in listing ==> t.id in c.templates
    requires |Named(listing, fileName)| == 1
    ensures var r := ReconcileOne(c, listing, fileName, stored, runId, replies, posts);
            && r.catalog.templates.Keys == c.templates.Keys
            && (r.outcome.Ok? ==> r.outcome.value.templateId == Named(listing, fileName)[0].id)
  {
    WhereMembers(listing, HasName(fileName));
  }

  /** No listed template of the file's name: when the service accepts the POST,
      exactly one template is created, under a fresh id and the file's name. */
  lemma StepCreatesShell(c: Catalog, listing: seq<Template>, fileName: string, stored: Version,
                         runId: string, replies: nat -> Response, posts: nat)
    requires c.Valid() && forall t :: t in listing ==> t.id in c.templates
    requires |Named(listing, fileName)| == 0
    ensures var r := ReconcileOne(c, listing, fileName, stored, runId, replies, posts);
            EnsureSuccessStatusCode(replies(posts)).Pass? ==>
              && c.nextId !in c.templates
              && r.catalog.templates.Keys == c.templates.Keys + {c.nextId}
              && r.catalog.templates[c.nextId].name == fileName
              && (r.outcome.Ok? ==> r.outcome.value.templateId == c.nextId)
  {
  }

  /** A step that fails with at most one listed template of the name failed on a POST:
      the error carries the body of the last reply used, which is not a success. */
  lemma StepFailsOnRejectedPost(c: Catalog, listing: seq<Template>, fileName: string, stored: Version,
                                runId: string, replies: nat -> Response, posts: nat)
    requires forall t :: t in listing ==> t.id in c.templates
    requires |Named(listing, fileName)| <= 1
    ensures var r := ReconcileOne(c, listing, fileName, stored, runId, replies, posts);
            r.outcome.Err? ==>
              && posts < r.posts
              && r.outcome.error == ServiceError(replies(r.posts - 1).body)
              && EnsureSuccessStatusCode(replies(r.posts - 1)).Fail?
  {
    var matches := Named(listing, fileName);
    if |matches| == 1 {
      WhereMembers(listing, HasName(fileName));
      assert ReconcileOne(c, listing, fileName, stored, runId, replies, posts) ==
             PostVersionStep(c, matches[0].id, stored, runId, replies, posts);
    }
  }

  /** A completed step attaches exactly one new version, carrying the stored content
      under the run's name, to a template called after the file, and reports the
      stored version's original name with that template's id. */
  lemma StepAttachesVersion(c: Catalog, listing: seq<Template>, fileName: string, stored: Version,
                            runId: string, replies: nat -> Response, posts: nat)
    requires c.Valid() && Covers(c, listing)
    ensures var r := ReconcileOne(c, listing, fileName, stored, runId, replies, posts);
            r.outcome.Ok? ==>
              var tid := r.outcome.value.templateId;
              && r.outcome.value.reference == stored.name
              && tid in r.catalog.templates
              && r.catalog.templates[tid].name == fileName
              && |r.catalog.templates[tid].versions| > 0
              && var vs := r.catalog.templates[tid].versions;
                 && vs[..|vs| - 1] == (if tid in c.templates then c.templates[tid].versions else [])
                 && Carries(vs[|vs| - 1], stored, runId)
  {
    var matches := Named(listing, fileName);
    if |matches| == 1 {
      WhereMembers(listing, HasName(fileName));
      assert matches[0] in listing;
      assert matches[0].name == fileName;
    }
  }

  /** `Grows` is transitive. */
  lemma GrowsTransitive(a: Catalog, b: Catalog, d: Catalog)
    requires Grows(a, b) && Grows(b, d)
    ensures Grows(a, d)
  {
  }

  /** Reconciling never rolls back: whatever the outcome, every template that was
      in the target is still there under its name with all its versions. */
  lemma {:induction false} ReconcileNeverRollsBack(c: Catalog, listing: seq<Template>, files: map<string, Version>,
                                                   order: seq<string>, runId: string, replies: nat -> Response, posts: nat)
    requires c.Valid() && Covers(c, listing)
    requires forall n :: n in order ==> n in files
    ensures Grows(c, ReconcileAll(c, listing, files, order, runId, replies, posts).catalog)
    decreases |order|
  {
    if order != [] {
      var step := ReconcileOne(c, listing, order[0], files[order[0]], runId, replies, posts);
      StepGrows(c, listing, order[0], files[order[0]], runId, replies, posts);
      if step.outcome.Ok? {
        ReconcileNeverRollsBack(step.catalog, listing, files, order[1..], runId, replies, step.posts);
        GrowsTransitive(c, step.catalog, ReconcileAll(step.catalog, listing, files, order[1..], runId, replies, step.posts).catalog);
      }
    }
  }

  /** A failure aborts the rest: whatever files come after the failing one have no
      effect on the target, the output, the requests sent or the error. */
  lemma {:induction false} ReconcileStopsAtFailure(c: Catalog, listing: seq<Template>, files: map<string, Version>,
                                                   order: seq<string>, more: seq<string>,
                                                   runId: string, replies: nat -> Response, posts: nat)
    requires forall t :: t in listing ==> t.id in c.templates
    requires forall n :: n in order + more ==> n in files
    requires ReconcileAll(c, listing, files, order, runId, replies, posts).failure.Some?
    ensures ReconcileAll(c, listing, files, order + more, runId, replies, posts) ==
            ReconcileAll(c, listing, files, order, runId, replies, posts)
    decreases |order|
  {
    ConcatTail(order, more);
    var step := ReconcileOne(c, listing, order[0], files[order[0]], runId, replies, posts);
    if step.outcome.Ok? {
      ReconcileStopsAtFailure(step.catalog, listing, files, order[1..], more, runId, replies, step.posts);
    }
  }

  /** The output line at position `i` stands for the file at position `i`: it names
      the stored version's original name and a target template called after the
      file, which holds a version carrying the stored content under the new name. */
  lemma {:induction false} ReconcileOutputLine(c: Catalog, listing: seq<Template>, files: map<string, Version>,
                                               order: seq<string>, runId: string, replies: nat -> Response,
                                               posts: nat, i: nat)
    requires c.Valid() && Covers(c, listing)
    requires forall n :: n in order ==> n in files
    requires i < |ReconcileAll(c, listing, files, order, runId, replies, posts).output|
    ensures var r := ReconcileAll(c, listing, files, order, runId, replies, posts);
            && i < |order|
            && r.output[i].reference == files[order[i]].name
            && r.output[i].templateId in r.catalog.templates
            && r.catalog.templates[r.output[i].templateId].name == order[i]
            && exists v :: v in r.catalog.templates[r.output[i].templateId].versions && Carries(v, files[order[i]], runId)
    decreases |order|
  {
    var step := ReconcileOne(c, listing, order[0], files[order[0]], runId, replies, posts);
    var rest := ReconcileAll(step.catalog, listing, files, order[1..], runId, replies, step.posts);
    assert step.outcome.Ok?;
    StepGrows(c, listing, order[0], files[order[0]], runId, replies, posts);
    if i == 0 {
      StepAttachesVersion(c, listing, order[0], files[order[0]], runId, replies, posts);
      ReconcileNeverRollsBack(step.catalog, listing, files, order[1..], runId, replies, step.posts);
      var tid := step.outcome.value.templateId;
      var vs := step.catalog.templates[tid].versions;
      var v := vs[|vs| - 1];
      assert rest.catalog.templates[tid].versions[|vs| - 1] == v;
    } else {
      ReconcileOutputLine(step.catalog, listing, files, order[1..], runId, replies, step.posts, i - 1);
      assert order[1..][i - 1] == order[i];
    }
  }

  /** The ids of the listed templates called `name`. */
  ghost function ListedIds(listing: seq<Template>, name: string): set<Id>
    decreases |listing|
  {
    if listing == [] then {}
    else
      var last := listing[|listing| - 1];
      ListedIds(listing[..|listing| - 1], name) + (if last.name == name then {last.id} else {})
  }

  /** An id is listed for `name` exactly when some listed template has both. */
  lemma {:induction false} ListedIdsMembers(listing: seq<Template>, name: string, id: Id)
    ensures id in ListedIds(listing, name) <==>
            exists i :: 0 <= i < |listing| && listing[i].id == id && listing[i].name == name
    decreases |listing|
  {
    if listing != [] {
      ListedIdsMembers(listing[..|listing| - 1], name, id);
    }
  }

  /** With distinct ids in the listing, SingleOrDefault's count is the number of
      distinct templates of that name. */
  lemma {:induction false} NamedCountsListedIds(listing: seq<Template>, name: string)
    requires forall i, j :: 0 <= i < j < |listing| ==> listing[i].id != listing[j].id
    ensures |Named(listing, name)| == |ListedIds(listing, name)|
    ensures |Named(listing, name)| == 1 ==> ListedIds(listing, name) == {Named(listing, name)[0].id}
    decreases |listing|
  {
    if listing != [] {
      var init, last := listing[..|listing| - 1], listing[|listing| - 1];
      NamedCountsListedIds(init, name);
      if last.name == name {
        ListedIdsMembers(init, name, last.id);
        assert last.id !in ListedIds(init, name);
      }
    }
  }

  /** A listing of the catalog sees every template of every name. */
  lemma ListingSeesAllNames(listing: seq<Template>, c: Catalog, name: string)
    requires Lists(listing, c)
    ensures c.NamedIds(name) == ListedIds(listing, name)
  {
    forall id ensures id in c.NamedIds(name) <==> id in ListedIds(listing, name) {
      ListedIdsMembers(listing, name, id);
    }
  }

  /** The templates a step leaves called `name`: unchanged for other names; for the
      step's own file name, the single listed one, or one new one when none was listed. */
  lemma StepNamedIds(c: Catalog, listing: seq<Template>, fileName: string, stored: Version,
                     runId: string, replies: nat -> Response, posts: nat, name: string)
    requires c.Valid() && Covers(c, listing)
    ensures var r := ReconcileOne(c, listing, fileName, stored, runId, replies, posts);
            && (name != fileName ==> r.catalog.NamedIds(name) == c.NamedIds(name))
            && (name == fileName && |Named(listing, fileName)| == 1 ==> r.catalog.NamedIds(name) == c.NamedIds(name))
            && (name == fileName && |Named(listing, fileName)| == 0 && r.outcome.Ok? ==>
                  r.outcome.value.templateId !in c.NamedIds(name) &&
                  r.catalog.NamedIds(name) == c.NamedIds(name) + {r.outcome.value.templateId})
  {
    var r := ReconcileOne(c, listing, fileName, stored, runId, replies, posts);
    StepGrows(c, listing, fileName, stored, runId, replies, posts);
    var matches := Named(listing, fileName);
    if |matches| > 1 {
      StepRejectsAmbiguousName(c, listing, fileName, stored, runId, replies, posts);
    } else if |matches| == 1 {
      StepReusesShell(c, listing, fileName, stored, runId, replies, posts);
    } else {
      StepCreatesShell(c, listing, fileName, stored, runId, replies, posts);
    }
  }

  /** Names no file has keep exactly the templates they had, whatever the outcome. */
  lemma {:induction false} ReconcileLeavesOtherNames(c: Catalog, listing: seq<Template>, files: map<string, Version>,
                                                     order: seq<string>, runId: string, replies: nat -> Response,
                                                     posts: nat, name: string)
    requires c.Valid() && Covers(c, listing)
    requires forall n :: n in order ==> n in files
    requires name !in order
    ensures ReconcileAll(c, listing, files, order, runId, replies, posts).catalog.NamedIds(name) == c.NamedIds(name)
    decreases |order|
  {
    if order != [] {
      var step := ReconcileOne(c, listing, order[0], files[order[0]], runId, replies, posts);
      StepNamedIds(c, listing, order[0], files[order[0]], runId, replies, posts, name);
      if step.outcome.Ok? {
        StepGrows(c, listing, order[0], files[order[0]], runId, replies, posts);
        ReconcileLeavesOtherNames(step.catalog, listing, files, order[1..], runId, replies, step.posts, name);
      }
    }
  }

  /** A step touches only the template it posts to, which is called after the file or
      is new: a template of another name is left exactly as it was. */
  lemma StepLeavesOtherTemplates(c: Catalog, listing: seq<Template>, fileName: string, stored: Version,
                                 runId: string, replies: nat -> Response, posts: nat, id: Id)
    requires c.Valid() && Covers(c, listing)
    requires id in c.templates && c.templates[id].name != fileName
    ensures var r := ReconcileOne(c, listing, fileName, stored, runId, replies, posts);
            id in r.catalog.templates && r.catalog.templates[id] == c.templates[id]
  {
    if |Named(listing, fileName)| == 1 {
      WhereMembers(listing, HasName(fileName));
    }
  }

  /** A template whose name no file has is exactly the same after the loop, versions
      included, whatever the outcome. */
  lemma {:induction false} ReconcileLeavesOtherTemplates(c: Catalog, listing: seq<Template>, files: map<string, Version>,
                                                         order: seq<string>, runId: string, replies: nat -> Response,
                                                         posts: nat, id: Id)
    requires c.Valid() && Covers(c, listing)
    requires forall n :: n in order ==> n in files
    requires id in c.templates && c.templates[id].name !in order
    ensures var r := ReconcileAll(c, listing, files, order, runId, replies, posts);
            id in r.catalog.templates && r.catalog.templates[id] == c.templates[id]
    decreases |order|
  {
    if order != [] {
      var step := ReconcileOne(c, listing, order[0], files[order[0]], runId, replies, posts);
      StepLeavesOtherTemplates(c, listing, order[0], files[order[0]], runId, replies, posts, id);
      if step.outcome.Ok? {
        StepGrows(c, listing, order[0], files[order[0]], runId, replies, posts);
        ReconcileLeavesOtherTemplates(step.catalog, listing, files, order[1..], runId, replies, step.posts, id);
      }
    }
  }

  /** Shell reuse over a whole run, with the listing taken before the loop and each
      file processed once: after a completed run, a processed name that had no
      template has exactly one, and a name that had one keeps exactly that one. */
  lemma {:induction false} ReconcileLeavesOneTemplatePerName(c: Catalog, listing: seq<Template>, files: map<string, Version>,
                                                             order: seq<string>, runId: string, replies: nat -> Response,
                                                             posts: nat, name: string)
    requires c.Valid() && Covers(c, listing)
    requires forall i, j :: 0 <= i < j < |listing| ==> listing[i].id != listing[j].id
    requires NoDuplicates(order)
    requires forall n :: n in order ==> n in files
    requires name in order && c.NamedIds(name) == ListedIds(listing, name)
    requires ReconcileAll(c, listing, files, order, runId, replies, posts).failure.None?
    ensures var r := ReconcileAll(c, listing, files, order, runId, replies, posts);
            && (|c.NamedIds(name)| == 0 ==> |r.catalog.NamedIds(name)| == 1)
            && (|c.NamedIds(name)| == 1 ==> r.catalog.NamedIds(name) == c.NamedIds(name))
    decreases |order|
  {
    var step := ReconcileOne(c, listing, order[0], files[order[0]], runId, replies, posts);
    StepGrows(c, listing, order[0], files[order[0]], runId, replies, posts);
    StepNamedIds(c, listing, order[0], files[order[0]], runId, replies, posts, name);
    assert step.outcome.Ok?;
    var rest := order[1..];
    if order[0] == name {
      assert name !in rest;
      NamedCountsListedIds(listing, name);
      ReconcileLeavesOtherNames(step.catalog, listing, files, rest, runId, replies, step.posts, name);
    } else {
      assert name in rest by {
        var k :| 0 <= k < |order| && order[k] == name;
        assert rest[k - 1] == name;
      }
      assert NoDuplicates(rest) by {
        forall i, j | 0 <= i < j < |rest| ensures rest[i] != rest[j] {
          assert rest[i] == order[i + 1] && rest[j] == order[j + 1];
        }
      }
      ReconcileLeavesOneTemplatePerName(step.catalog, listing, files, rest, runId, replies, step.posts, name);
    }
  }

  /** One unfolding of ReconcileAll, on the step for the first file. */
  lemma ReconcileAllFirst(c: Catalog, listing: seq<Template>, files: map<string, Version>, order: seq<string>,
                          runId: string, replies: nat -> Response, posts: nat)
    requires forall t :: t in listing ==> t.id in c.templates
    requires forall n :: n in order ==> n in files
    requires order != []
    ensures var step := ReconcileOne(c, listing, order[0], files[order[0]], runId, replies, posts);
            var r := ReconcileAll(c, listing, files, order, runId, replies, posts);
            && (step.outcome.Err? ==> r == Reconciled(step.catalog, [], step.posts, Some(step.outcome.error)))
            && (step.outcome.Ok? ==>
                  var rest := ReconcileAll(step.catalog, listing, files, order[1..], runId, replies, step.posts);
                  r == Reconciled(rest.catalog, [step.outcome.value] + rest.output, rest.posts, rest.failure))
  {
  }

  /** The body of the reconcile loop for one file, on the target account: reuse the
      single listed template of the file's name or create one, then post the renamed
      version. `posts` counts the POSTs sent so far and picks their replies. */
  method ReconcileFile(target: Account, listing: seq<Template>, fileName: string, stored: Version,
                       runId: string, replies: nat -> Response, posts: nat)
    returns (outcome: Result<OutputLine, Error>, postsAfter: nat)
    requires target.Valid()
    requires forall t :: t in listing ==> t.id in target.templates
    modifies target
    ensures target.Valid()
    ensures Step(target.View(), postsAfter, outcome) ==
            ReconcileOne(old(target.View()), listing, fileName, stored, runId, replies, posts)
  {
    postsAfter := posts;
    var matches := Named(listing, fileName);
    if |matches| > 1 {
      return Err(AmbiguousName(fileName)), postsAfter;
    }
    var templateId: Id;
    if |matches| == 1 {
      WhereMembers(listing, HasName(fileName));
      templateId := matches[0].id;
    } else {
      var created := target.PostTemplate(fileName, replies(postsAfter));
      postsAfter := postsAfter + 1;
      if created.Err? {
        return Err(ServiceError(created.error)), postsAfter;
      }
      templateId := created.value.id;
    }
    assert ReconcileOne(old(target.View()), listing, fileName, stored, runId, replies, posts) ==
           PostVersionStep(target.View(), templateId, stored, runId, replies, postsAfter);
    var posted := target.PostVersion(templateId, Renamed(stored, runId), replies(postsAfter));
    postsAfter := postsAfter + 1;
    if posted.Err? {
      return Err(ServiceError(posted.error)), postsAfter;
    }
    outcome := Ok(OutputLine(stored.name, templateId));
  }

  /** The second loop of Execute, against the target account, with `listing` the
      target listing taken before the loop and `order` the order of the files. */
  method Reconcile(target: Account, listing: seq<Template>, files: map<string, Version>, order: seq<string>,
                   runId: string, replies: nat -> Response) returns (result: Result<seq<OutputLine>, Error>)
    requires target.Valid()
    requires forall t :: t in listing ==> t.id in target.templates
    requires forall n :: n in order ==> n in files
    modifies target
    ensures target.Valid()
    ensures target.View() == ReconcileAll(old(target.View()), listing, files, order, runId, replies, 0).catalog
    ensures result == Reported(ReconcileAll(old(target.View()), listing, files, order, runId, replies, 0))
  {
    ghost var whole := ReconcileAll(target.View(), listing, files, order, runId, replies, 0);
    var output: seq<OutputLine> := [];
    var posts: nat := 0;
    var i := 0;
    while i < |order|
      invariant 0 <= i <= |order|
      invariant target.Valid()
      invariant forall t :: t in listing ==> t.id in target.templates
      invariant var r := ReconcileAll(target.View(), listing, files, order[i..], runId, replies, posts);
                whole == Reconciled(r.catalog, output + r.output, r.posts, r.failure)
    {
      var fileName := order[i];
      assert order[i..][0] == fileName && order[i..][1..] == order[i + 1..];
      ghost var before, postsBefore := target.View(), posts;
      ghost var now := ReconcileAll(before, listing, files, order[i..], runId, replies, postsBefore);
      var outcome;
      outcome, posts := ReconcileFile(target, listing, fileName, files[fileName], runId, replies, posts);
      ReconcileAllFirst(before, listing, files, order[i..], runId, replies, postsBefore);
      if outcome.Err? {
        assert now == Reconciled(target.View(), [], posts, Some(outcome.error));
        assert whole.failure == Some(outcome.error);
        return Err(outcome.error);
      }
      ghost var rest := ReconcileAll(target.View(), listing, files, order[i + 1..], runId, replies, posts);
      assert now == Reconciled(rest.catalog, [outcome.value] + rest.output, rest.posts, rest.failure);
      assert output + ([outcome.value] + rest.output) == (output + [outcome.value]) + rest.output;
      output := output + [outcome.value];
      i := i + 1;
    }
    assert order[i..] == [];
    assert output + [] == output;
    result := Ok(output);
  }
}
