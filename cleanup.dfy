/** CleanUp: for each given template, DELETE each of its listed versions and then the
    template itself on the target account. The responses are never looked at, so a
    request the service rejects neither stops the loop nor is reported; what it
    would have removed stays in the account. */
module Cleanup {
  import opened Common
  import opened TemplatesModel
  import opened SendGridService

  /** One DELETE request CleanUp sends. */
  datatype Delete =
    | DeleteVersionRequest(templateId: Id, versionId: Id)  // DELETE templates/{templateId}/versions/{versionId}
    | DeleteTemplateRequest(templateId: Id)                 // DELETE templates/{templateId}

  /** The version deletes for one template, in the order its versions are listed. */
  function VersionDeletes(templateId: Id, versions: seq<Version>): seq<Delete>
  {
    seq(|versions|, i requires 0 <= i < |versions| => DeleteVersionRequest(templateId, versions[i].id))
  }

  /** The requests for one template: its versions first, the template last. */
  function Block(t: Template): seq<Delete>
  {
    VersionDeletes(t.id, t.versions) + [DeleteTemplateRequest(t.id)]
  }

  /** Every request CleanUp sends for `items`, in order. */
  function Deletes(items: seq<Template>): seq<Delete>
    decreases |items|
  {
    if items == [] then [] else Deletes(items[..|items| - 1]) + Block(items[|items| - 1])
  }

  /** The ids of the given templates. */
  ghost function Ids(items: seq<Template>): set<Id>
  {
    set i | 0 <= i < |items| :: items[i].id
  }

  /** The effect of one request on the account, given the service's reply: a rejected
      request changes nothing, and deleting what is not there changes nothing. */
  function Apply(c: Catalog, d: Delete, reply: Response): Catalog
  {
    if !Succeeded(reply) then c
    else
      match d
      case DeleteVersionRequest(templateId, versionId) => RemoveVersion(c, templateId, versionId)
      case DeleteTemplateRequest(templateId) => RemoveTemplate(c, templateId)
  }

  /** The effect of a run of requests applied in order, the k-th of them answered by
      `replies(offset + k)`. */
  function ApplyAll(c: Catalog, ds: seq<Delete>, replies: nat -> Response, offset: nat): Catalog
    decreases |ds|
  {
    if ds == [] then c
    else Apply(ApplyAll(c, ds[..|ds| - 1], replies, offset), ds[|ds| - 1], replies(offset + |ds| - 1))
  }

  /** The service accepts each of the `n` requests numbered from `offset`. */
  predicate AllSucceed(replies: nat -> Response, offset: nat, n: nat)
  {
    forall k :: offset <= k < offset + n ==> Succeeded(replies(k))
  }

  /** Applying two runs of requests one after the other is applying their concatenation. */
  lemma {:induction false} ApplyAllAppend(c: Catalog, a: seq<Delete>, b: seq<Delete>, replies: nat -> Response, offset: nat)
    ensures ApplyAll(c, a + b, replies, offset) == ApplyAll(ApplyAll(c, a, replies, offset), b, replies, offset + |a|)
    decreases |b|
  {
    if b == [] {
      assert a + b == a;
    } else {
      assert (a + b)[..|a + b| - 1] == a + b[..|b| - 1];
      ApplyAllAppend(c, a, b[..|b| - 1], replies, offset);
    }
  }

  /** One more request, answered by the reply numbered after those of the run before it. */
  lemma ApplyAllSnoc(c: Catalog, ds: seq<Delete>, d: Delete, replies: nat -> Response, offset: nat)
    ensures ApplyAll(c, ds + [d], replies, offset) == Apply(ApplyAll(c, ds, replies, offset), d, replies(offset + |ds|))
  {
    assert (ds + [d])[..|ds|] == ds;
  }

  /** Whatever the replies, requests keep the account well formed and never hand out an id. */
  lemma {:induction false} ApplyAllKeepsValid(c: Catalog, ds: seq<Delete>, replies: nat -> Response, offset: nat)
    requires c.Valid()
    ensures ApplyAll(c, ds, replies, offset).Valid()
    ensures ApplyAll(c, ds, replies, offset).nextId == c.nextId
    decreases |ds|
  {
    if ds != [] {
      ApplyAllKeepsValid(c, ds[..|ds| - 1], replies, offset);
    }
  }

  /** A template is there after a run of requests exactly when it was there before and
      the service accepted none of the run's deletes of that template. */
  lemma {:induction false} ApplyAllRemovesOnlyAcceptedTemplates(c: Catalog, ds: seq<Delete>, replies: nat -> Response, offset: nat, id: Id)
    ensures id in ApplyAll(c, ds, replies, offset).templates <==>
      && id in c.templates
      && forall k :: 0 <= k < |ds| && ds[k] == DeleteTemplateRequest(id) ==> !Succeeded(replies(offset + k))
    decreases |ds|
  {
    if ds != [] {
      var init := ds[..|ds| - 1];
      ApplyAllRemovesOnlyAcceptedTemplates(c, init, replies, offset, id);
      assert forall k :: 0 <= k < |init| ==> init[k] == ds[k];
    }
  }

  /** A template all of whose requests the service rejected, or that no request names,
      is exactly as it was: a rejected DELETE leaves its target in place. */
  lemma {:induction false} ApplyAllLeavesRejectedTemplate(c: Catalog, ds: seq<Delete>, replies: nat -> Response, offset: nat, id: Id)
    requires forall k :: 0 <= k < |ds| && ds[k].templateId == id ==> !Succeeded(replies(offset + k))
    ensures id in ApplyAll(c, ds, replies, offset).templates <==> id in c.templates
    ensures id in c.templates ==> ApplyAll(c, ds, replies, offset).templates[id] == c.templates[id]
    decreases |ds|
  {
    if ds != [] {
      var init := ds[..|ds| - 1];
      assert forall k :: 0 <= k < |init| ==> init[k] == ds[k];
      ApplyAllLeavesRejectedTemplate(c, init, replies, offset, id);
    }
  }

  /** Whatever the replies, deleting versions of one template keeps every template id,
      leaves every other template as it was, and never changes the template's id. */
  lemma {:induction false} VersionDeletesTouchOnlyTheirTemplate(c: Catalog, templateId: Id, versions: seq<Version>, replies: nat -> Response, offset: nat)
    ensures var d := ApplyAll(c, VersionDeletes(templateId, versions), replies, offset);
            && d.nextId == c.nextId
            && d.templates.Keys == c.templates.Keys
            && (forall id :: id in c.templates && id != templateId ==> d.templates[id] == c.templates[id])
            && (templateId in c.templates ==> d.templates[templateId].id == c.templates[templateId].id)
    decreases |versions|
  {
    if versions != [] {
      var init := versions[..|versions| - 1];
      assert VersionDeletes(templateId, versions)[..|versions| - 1] == VersionDeletes(templateId, init);
      VersionDeletesTouchOnlyTheirTemplate(c, templateId, init, replies, offset);
    }
  }

  /** When the service accepts them, the requests for one template remove exactly that
      template. */
  lemma BlockRemovesTemplate(c: Catalog, t: Template, replies: nat -> Response, offset: nat)
    requires AllSucceed(replies, offset, |Block(t)|)
    ensures ApplyAll(c, Block(t), replies, offset) == Catalog(c.templates - {t.id}, c.nextId)
  {
    var vs := VersionDeletes(t.id, t.versions);
    ApplyAllAppend(c, vs, [DeleteTemplateRequest(t.id)], replies, offset);
    VersionDeletesTouchOnlyTheirTemplate(c, t.id, t.versions, replies, offset);
    assert [DeleteTemplateRequest(t.id)][..0] == [];
    assert Succeeded(replies(offset + |vs|));
  }

  /** The requests for a concatenation of templates are those of each part in turn. */
  lemma {:induction false} DeletesAppend(a: seq<Template>, b: seq<Template>)
    ensures Deletes(a + b) == Deletes(a) + Deletes(b)
    decreases |b|
  {
    if b == [] {
      assert a + b == a;
    } else {
      var init, last := b[..|b| - 1], b[|b| - 1];
      assert (a + b)[..|a + b| - 1] == a + init;
      assert (a + b)[|a + b| - 1] == last;
      DeletesAppend(a, init);
      calc {
        Deletes(a + b);
        Deletes(a + init) + Block(last);
        (Deletes(a) + Deletes(init)) + Block(last);
        Deletes(a) + (Deletes(init) + Block(last));
        Deletes(a) + Deletes(b);
      }
    }
  }

  /** When the service accepts every request, CleanUp leaves the account holding exactly
      the templates whose ids were not given, untouched, and hands out no ids. */
  lemma {:induction false} CleanUpRemovesGivenTemplates(c: Catalog, items: seq<Template>, replies: nat -> Response)
    requires AllSucceed(replies, 0, |Deletes(items)|)
    ensures ApplyAll(c, Deletes(items), replies, 0) == Catalog(c.templates - Ids(items), c.nextId)
    decreases |items|
  {
    if items == [] {
      assert c.templates - Ids(items) == c.templates;
    } else {
      var init, last := items[..|items| - 1], items[|items| - 1];
      var n := |Deletes(init)|;
      assert |Deletes(items)| == n + |Block(last)|;
      CleanUpRemovesGivenTemplates(c, init, replies);
      ApplyAllAppend(c, Deletes(init), Block(last), replies, 0);
      BlockRemovesTemplate(ApplyAll(c, Deletes(init), replies, 0), last, replies, n);
      IdsOfInit(items);
      MapMinusUnion(c.templates, Ids(init), {last.id});
    }
  }

  /** Removing two sets of keys one after the other removes their union. */
  lemma MapMinusUnion<K, V>(m: map<K, V>, a: set<K>, b: set<K>)
    ensures m - (a + b) == (m - a) - b
  {
  }

  /** The ids of a non-empty run of templates: those before the last, and the last. */
  lemma IdsOfInit(items: seq<Template>)
    requires items != []
    ensures Ids(items) == Ids(items[..|items| - 1]) + {items[|items| - 1].id}
  {
    var init := items[..|items| - 1];
    forall id | id in Ids(items) ensures id in Ids(init) + {items[|items| - 1].id} {
      var i :| 0 <= i < |items| && items[i].id == id;
      if i < |items| - 1 { assert init[i].id == id; }
    }
    forall id | id in Ids(init) ensures id in Ids(items) {
      var i :| 0 <= i < |init| && init[i].id == id;
      assert items[i].id == id;
    }
  }

  /** GET templates/{templateId}/versions/{versionId}: the version, if the template is
      there and holds a version with that id. */
  function FindVersion(c: Catalog, templateId: Id, versionId: Id): (r: Option<Version>)
    ensures r.Some? ==> templateId in c.templates && r.value in c.templates[templateId].versions && r.value.id == versionId
  {
    if templateId !in c.templates then None
    else
      var matching := Where(c.templates[templateId].versions, (v: Version) => v.id == versionId);
      WhereMembers(c.templates[templateId].versions, (v: Version) => v.id == versionId);
      if matching == [] then None else Some(matching[0])
  }

  /** When the service accepts every request, neither any given template nor any of its
      listed versions can be found in the account after CleanUp. */
  lemma CleanUpLeavesNothingToFind(c: Catalog, items: seq<Template>, replies: nat -> Response, i: nat, j: nat)
    requires AllSucceed(replies, 0, |Deletes(items)|)
    requires i < |items| && j < |items[i].versions|
    ensures items[i].id !in ApplyAll(c, Deletes(items), replies, 0).templates
    ensures FindVersion(ApplyAll(c, Deletes(items), replies, 0), items[i].id, items[i].versions[j].id).None?
  {
    CleanUpRemovesGivenTemplates(c, items, replies);
    assert items[i].id in Ids(items);
  }

  /** The requests for the template at position `i` form one contiguous block, after
      those of every earlier template: each of its listed versions in turn, then the
      template itself. No version delete of a template comes after its template delete. */
  lemma DeletesInOrder(items: seq<Template>, i: nat)
    requires i < |items|
    ensures var start := |Deletes(items[..i])|;
            var t := items[i];
            && start + |t.versions| < |Deletes(items)|
            && (forall j :: 0 <= j < |t.versions| ==> Deletes(items)[start + j] == DeleteVersionRequest(t.id, t.versions[j].id))
            && Deletes(items)[start + |t.versions|] == DeleteTemplateRequest(t.id)
  {
    assert items == items[..i] + [items[i]] + items[i + 1..];
    DeletesAppend(items[..i] + [items[i]], items[i + 1..]);
    DeletesAppend(items[..i], [items[i]]);
    assert [items[i]][..0] == [];
  }

  /** The inner loop of CleanUp: DELETE each listed version of one template, the j-th
      answered by `replies(offset + j)`, whatever the answers. */
  method DeleteVersions(target: Account, templateId: Id, versions: seq<Version>, replies: nat -> Response, offset: nat)
    returns (issued: seq<Delete>)
    requires target.Valid()
    modifies target
    ensures target.Valid()
    ensures issued == VersionDeletes(templateId, versions)
    ensures target.View() == ApplyAll(old(target.View()), issued, replies, offset)
  {
    issued := [];
    var j := 0;
    while j < |versions|
      invariant 0 <= j <= |versions|
      invariant target.Valid()
      invariant issued == VersionDeletes(templateId, versions[..j])
      invariant target.View() == ApplyAll(old(target.View()), issued, replies, offset)
    {
      var request := DeleteVersionRequest(templateId, versions[j].id);
      assert VersionDeletes(templateId, versions[..j + 1]) == VersionDeletes(templateId, versions[..j]) + [request];
      ApplyAllSnoc(old(target.View()), issued, request, replies, offset);
      target.DeleteVersion(templateId, versions[j].id, replies(offset + j));
      issued := issued + [request];
      j := j + 1;
    }
    assert versions[..j] == versions;
  }

  /** The body of CleanUp's loop for one template: its version deletes, then the
      template delete, answered by the replies numbered from `offset`. */
  method DeleteBlock(target: Account, item: Template, replies: nat -> Response, offset: nat)
    returns (block: seq<Delete>)
    requires target.Valid()
    modifies target
    ensures target.Valid()
    ensures block == Block(item)
    ensures target.View() == ApplyAll(old(target.View()), block, replies, offset)
  {
    var versionRequests := DeleteVersions(target, item.id, item.versions, replies, offset);
    ApplyAllSnoc(old(target.View()), versionRequests, DeleteTemplateRequest(item.id), replies, offset);
    target.DeleteTemplate(item.id, replies(offset + |versionRequests|));
    block := versionRequests + [DeleteTemplateRequest(item.id)];
  }

  /** CleanUp on the target account, its k-th request answered by `replies(k)`: the
      requests it sends, whatever the answers, and the account after them. */
  method CleanUp(target: Account, items: seq<Template>, replies: nat -> Response) returns (issued: seq<Delete>)
    requires target.Valid()
    modifies target
    ensures target.Valid()
    ensures issued == Deletes(items)
    ensures target.View() == ApplyAll(old(target.View()), issued, replies, 0)
  {
    issued := [];
    var i := 0;
    while i < |items|
      invariant 0 <= i <= |items|
      invariant target.Valid()
      invariant issued == Deletes(items[..i])
      invariant target.View() == ApplyAll(old(target.View()), issued, replies, 0)
    {
      ApplyAllAppend(old(target.View()), issued, Block(items[i]), replies, 0);
      var block := DeleteBlock(target, items[i], replies, |issued|);
      issued := issued + block;
      assert items[..i + 1][..i] == items[..i];
      i := i + 1;
    }
    assert items[..i] == items;
  }
}
