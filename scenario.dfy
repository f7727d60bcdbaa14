/** A worked run: three source templates, two of them called "promo-…", filtered by
    the prefix "promo", snapshotted under run 202401010900 and reconciled into an
    empty target account that accepts every POST. */
module Scenario {
  import opened Common
  import opened TemplatesModel
  import opened SendGridService
  import opened CatalogReader
  import opened Snapshotter
  import opened Reconciler

  const RunId: string := "202401010900"

  function ActiveVersion(id: Id, templateId: Id, name: string): Version
  {
    Version(id, templateId, 1, name, "2024-01-01 08:00:00", Some("<p>" + name + "</p>"), Some(name), Some(name))
  }

  const Welcome: Template := Template(0, "promo-welcome", [ActiveVersion(10, 0, "welcome-v2")])
  const Digest: Template := Template(1, "promo-digest", [ActiveVersion(11, 1, "digest-v1")])
  const Other: Template := Template(2, "other", [ActiveVersion(12, 2, "other-v1")])

  function Accepted(n: nat): Response
  {
    Response(201, "")
  }

  /** The prefix keeps the two promo templates, in listing order. */
  lemma ScenarioFilter()
    ensures MatchingTemplates([Welcome, Digest, Other], Some("promo")) == [Welcome, Digest]
  {
    var p := HasPrefix("promo");
    assert p(Welcome) && p(Digest);
    assert !p(Other) by {
      assert Other.name[0] != "promo"[0];
    }
    assert Where([], p) == [];
    assert [Welcome][..0] == [];
    assert Where([Welcome], p) == [Welcome];
    assert [Welcome, Digest][..1] == [Welcome];
    assert Where([Welcome, Digest], p) == [Welcome, Digest];
    assert [Welcome, Digest, Other][..2] == [Welcome, Digest];
    assert Where([Welcome, Digest, Other], p) == [Welcome, Digest];
  }

  /** The snapshot writes two files, one per promo template, each its active version. */
  lemma ScenarioSnapshot()
    ensures SaveAll(map[0 := Welcome, 1 := Digest, 2 := Other], [Welcome, Digest], map[]) ==
            Saved(map["promo-welcome" := Welcome.versions[0], "promo-digest" := Digest.versions[0]], None)
  {
    var source := map[0 := Welcome, 1 := Digest, 2 := Other];
    assert FirstActiveIndex(Welcome.versions) == Some(0);
    assert FirstActiveIndex(Digest.versions) == Some(0);
    assert SnapshotOf(source, Welcome) == Ok(Welcome.versions[0]);
    assert SnapshotOf(source, Digest) == Ok(Digest.versions[0]);
    var one := map[][Welcome.name := Welcome.versions[0]];
    var two := one[Digest.name := Digest.versions[0]];
    assert [Welcome, Digest][1..] == [Digest];
    assert [Digest][1..] == [];
    assert SaveAll(source, [], two) == Saved(two, None);
    assert SaveAll(source, [Digest], one) == Saved(two, None);
    assert SaveAll(source, [Welcome, Digest], map[]) == Saved(two, None);
    assert two == map["promo-welcome" := Welcome.versions[0], "promo-digest" := Digest.versions[0]];
  }

  /** Reconciling the two files into an empty target, in the order the directory lists
      them, creates two templates, attaches one renamed version to each and reports the
      two pairs of version name and new template id. */
  lemma ScenarioReconcile()
    ensures var files := map["promo-welcome" := Welcome.versions[0], "promo-digest" := Digest.versions[0]];
            var r := ReconcileAll(Catalog(map[], 0), [], files, ["promo-welcome", "promo-digest"], RunId, Accepted, 0);
            && r.failure.None?
            && r.output == [OutputLine("welcome-v2", 0), OutputLine("digest-v1", 2)]
            && r.catalog.templates.Keys == {0, 2}
            && r.catalog.templates[0].name == "promo-welcome"
            && r.catalog.templates[0].versions == [Renamed(Welcome.versions[0], RunId).(id := 1, templateId := 0)]
            && r.catalog.templates[2].name == "promo-digest"
            && r.catalog.templates[2].versions == [Renamed(Digest.versions[0], RunId).(id := 3, templateId := 2)]
  {
    var files := map["promo-welcome" := Welcome.versions[0], "promo-digest" := Digest.versions[0]];
    var order := ["promo-welcome", "promo-digest"];
    var w, d := files["promo-welcome"], files["promo-digest"];
    var c0 := Catalog(map[], 0);
    var wv := Renamed(w, RunId).(id := 1, templateId := 0);
    var c1 := Catalog(map[0 := Template(0, "promo-welcome", [wv])], 2);
    var dv := Renamed(d, RunId).(id := 3, templateId := 2);
    var c2 := Catalog(map[0 := Template(0, "promo-welcome", [wv]), 2 := Template(2, "promo-digest", [dv])], 4);
    assert Named([], "promo-welcome") == [] && Named([], "promo-digest") == [];
    assert EnsureSuccessStatusCode(Accepted(0)) == Pass;
    assert EnsureSuccessStatusCode(Accepted(1)) == Pass;
    assert EnsureSuccessStatusCode(Accepted(2)) == Pass;
    assert EnsureSuccessStatusCode(Accepted(3)) == Pass;
    assert AddTemplate(c0, "promo-welcome").0 == Catalog(map[0 := Template(0, "promo-welcome", [])], 1);
    assert w.name == "welcome-v2" && d.name == "digest-v1";
    var shell1 := AddTemplate(c0, "promo-welcome").0;
    assert [] + [wv] == [wv];
    assert shell1.templates[0 := shell1.templates[0].(versions := [wv])] == c1.templates;
    assert AddVersion(shell1, 0, Renamed(w, RunId)).0 == c1;
    assert PostVersionStep(shell1, 0, w, RunId, Accepted, 1) == Step(c1, 2, Ok(OutputLine("welcome-v2", 0)));
    var shell2 := AddTemplate(c1, "promo-digest").0;
    assert shell2 == Catalog(c1.templates[2 := Template(2, "promo-digest", [])], 3);
    assert [] + [dv] == [dv];
    assert shell2.templates[2 := shell2.templates[2].(versions := [dv])] == c2.templates;
    assert AddVersion(shell2, 2, Renamed(d, RunId)).0 == c2;
    assert PostVersionStep(shell2, 2, d, RunId, Accepted, 3) == Step(c2, 4, Ok(OutputLine("digest-v1", 2)));
    assert ReconcileOne(c0, [], "promo-welcome", w, RunId, Accepted, 0) == Step(c1, 2, Ok(OutputLine("welcome-v2", 0)));
    assert ReconcileOne(c1, [], "promo-digest", d, RunId, Accepted, 2) == Step(c2, 4, Ok(OutputLine("digest-v1", 2)));
    assert order[1..] == ["promo-digest"];
    assert ["promo-digest"][1..] == [];
    assert ReconcileAll(c2, [], files, [], RunId, Accepted, 4) == Reconciled(c2, [], 4, None);
    assert ReconcileAll(c1, [], files, ["promo-digest"], RunId, Accepted, 2) == Reconciled(c2, [OutputLine("digest-v1", 2)], 4, None);
  }
}
