/** The templating service as the transfer program sees it: the success check it
    applies to POST responses, the errors a run can end with, and one account
    (its templates keyed by id) with the remote calls the program makes on it. */
module SendGridService {
  import opened Common
  import opened TemplatesModel

  /** The part of an HTTP response the program looks at. */
  datatype Response = Response(status: int, body: string)

  /** Throws (here: fails) with the response body unless the status is a success code. */
  function EnsureSuccessStatusCode(response: Response): Outcome<string>
  {
    if 200 <= response.status && response.status <= 299 then Pass else Fail(response.body)
  }

  /** The check passes exactly on the 2xx status class, and a failure carries the
      response body. */
  lemma EnsureSuccessStatusCodeIs2xx(response: Response)
    ensures EnsureSuccessStatusCode(response).Pass? <==> response.status / 100 == 2
    ensures EnsureSuccessStatusCode(response).Fail? ==> EnsureSuccessStatusCode(response).error == response.body
  {
  }

  /** The service carried out a request: it answered with a success code. The program
      never asks this of a DELETE; the model uses it to say what the service did. */
  predicate Succeeded(response: Response)
  {
    EnsureSuccessStatusCode(response).Pass?
  }

  /** Why a run stops. */
  datatype Error =
    | ServiceError(body: string)     // a POST answered with a non-success status
    | TemplateNotFound(id: Id)       // GET templates/{id} returned no template, so no versions to search
    | NoActiveVersion(name: string)  // First(v => v.Active == 1) found nothing
    | AmbiguousName(name: string)    // SingleOrDefault found several templates with the name

  /** Every version of `t` has an id below `bound`. */
  ghost predicate VersionIdsBelow(t: Template, bound: Id)
  {
    forall v :: v in t.versions ==> v.id < bound
  }

  /** The state of one account: its templates by id, and the next id it hands out. */
  datatype Catalog = Catalog(templates: map<Id, Template>, nextId: Id) {

    /** Every template sits under its own id, and every id in use, of a template or of
        one of its versions, is below `nextId`. */
    ghost predicate Valid()
    {
      forall id :: id in templates ==>
        && id < nextId
        && templates[id].id == id
        && VersionIdsBelow(templates[id], nextId)
    }

    /** The ids of the templates called `name`. */
    ghost function NamedIds(name: string): set<Id>
    {
      set id | id in templates && templates[id].name == name
    }
  }

  /** POST templates: the service stores an empty template under a fresh id. */
  function AddTemplate(c: Catalog, name: string): (Catalog, Template)
  {
    var t := Template(c.nextId, name, []);
    (Catalog(c.templates[t.id := t], c.nextId + 1), t)
  }

  /** POST templates/{templateId}/versions: the service appends the payload under a
      fresh version id, attached to the template. */
  function AddVersion(c: Catalog, templateId: Id, payload: Version): (Catalog, Version)
    requires templateId in c.templates
  {
    var v := payload.(id := c.nextId, templateId := templateId);
    var t := c.templates[templateId];
    (Catalog(c.templates[templateId := t.(versions := t.versions + [v])], c.nextId + 1), v)
  }

  /** The id a version POST hands out is held by no version the account already has. */
  lemma AddVersionIsFresh(c: Catalog, templateId: Id, payload: Version, id: Id, v: Version)
    requires c.Valid() && templateId in c.templates
    requires id in c.templates && v in c.templates[id].versions
    ensures AddVersion(c, templateId, payload).1.id != v.id
  {
  }

  function HasOtherId(versionId: Id): Version -> bool
  {
    (v: Version) => v.id != versionId
  }

  /** DELETE templates/{templateId}/versions/{versionId}; a missing template is left alone. */
  function RemoveVersion(c: Catalog, templateId: Id, versionId: Id): (r: Catalog)
    ensures r.nextId == c.nextId && r.templates.Keys == c.templates.Keys
    ensures c.Valid() ==> r.Valid()
  {
    if templateId in c.templates then
      var t := c.templates[templateId];
      WhereMembers(t.versions, HasOtherId(versionId));
      c.(templates := c.templates[templateId := t.(versions := Where(t.versions, HasOtherId(versionId)))])
    else c
  }

  /** DELETE templates/{templateId}; a missing template is left alone. */
  function RemoveTemplate(c: Catalog, templateId: Id): Catalog
  {
    c.(templates := c.templates - {templateId})
  }

  /** `listing` is a GET templates answer for `c`: every template of `c` exactly once. */
  ghost predicate Lists(listing: seq<Template>, c: Catalog)
  {
    && (forall i, j :: 0 <= i < j < |listing| ==> listing[i].id != listing[j].id)
    && (forall i :: 0 <= i < |listing| ==> listing[i].id in c.templates && c.templates[listing[i].id] == listing[i])
    && (forall id :: id in c.templates ==> exists i :: 0 <= i < |listing| && listing[i].id == id)
  }

  /** One account of the service, reached through its API key. */
  class Account {
    var templates: map<Id, Template>
    var nextId: Id

    function View(): Catalog
      reads this
    {
      Catalog(templates, nextId)
    }

    ghost predicate Valid()
      reads this
    {
      View().Valid()
    }

    /** GET templates: every template once, in the order the service picks. */
    method List() returns (listing: seq<Template>)
      requires Valid()
      ensures Lists(listing, View())
    {
      var ids := Enumerate(templates.Keys);
      var m := templates;
      listing := seq(|ids|, i requires 0 <= i < |ids| && ids[i] in m => m[ids[i]]);
      forall id | id in templates
        ensures exists i :: 0 <= i < |listing| && listing[i].id == id
      {
        var i :| 0 <= i < |ids| && ids[i] == id;
        assert listing[i].id == id;
      }
    }

    /** POST templates with only a name, followed by EnsureSuccessStatusCode. */
    method PostTemplate(name: string, response: Response) returns (r: Result<Template, string>)
      requires Valid()
      modifies this
      ensures Valid()
      ensures EnsureSuccessStatusCode(response).Fail? ==>
        r == Err(response.body) && View() == old(View())
      ensures EnsureSuccessStatusCode(response).Pass? ==>
        View() == AddTemplate(old(View()), name).0 && r == Ok(AddTemplate(old(View()), name).1)
    {
      match EnsureSuccessStatusCode(response)
      case Fail(body) =>
        r := Err(body);
      case Pass =>
        var created := AddTemplate(View(), name);
        templates, nextId := created.0.templates, created.0.nextId;
        r := Ok(created.1);
    }

    /** POST templates/{templateId}/versions, followed by EnsureSuccessStatusCode. */
    method PostVersion(templateId: Id, payload: Version, response: Response) returns (r: Result<Version, string>)
      requires Valid() && templateId in templates
      modifies this
      ensures Valid()
      ensures EnsureSuccessStatusCode(response).Fail? ==>
        r == Err(response.body) && View() == old(View())
      ensures EnsureSuccessStatusCode(response).Pass? ==>
        View() == AddVersion(old(View()), templateId, payload).0 && r == Ok(AddVersion(old(View()), templateId, payload).1)
    {
      match EnsureSuccessStatusCode(response)
      case Fail(body) =>
        r := Err(body);
      case Pass =>
        var created := AddVersion(View(), templateId, payload);
        templates, nextId := created.0.templates, created.0.nextId;
        r := Ok(created.1);
    }

    /** DELETE templates/{templateId}/versions/{versionId}, answered by `response`. The
        caller never reads the response; a rejected request leaves the account as it was. */
    method DeleteVersion(templateId: Id, versionId: Id, response: Response)
      requires Valid()
      modifies this
      ensures Valid()
      ensures Succeeded(response) ==> View() == RemoveVersion(old(View()), templateId, versionId)
      ensures !Succeeded(response) ==> View() == old(View())
    {
      if Succeeded(response) {
        templates := RemoveVersion(View(), templateId, versionId).templates;
      }
    }

    /** DELETE templates/{templateId}, answered by `response`. The caller never reads the
        response; a rejected request leaves the template in place. */
    method DeleteTemplate(templateId: Id, response: Response)
      requires Valid()
      modifies this
      ensures Valid()
      ensures Succeeded(response) ==> View() == RemoveTemplate(old(View()), templateId)
      ensures !Succeeded(response) ==> View() == old(View())
    {
      if Succeeded(response) {
        templates := templates - {templateId};
      }
    }
  }
}
