# sendgrid-template-transfer, modelled in Dafny

The program copies the email templates of one SendGrid account into another, in
three steps that run one after the other:
- **prefix filter** (`GetMatchingTemplates`): list the source account and keep
  the templates whose name starts with an optional prefix;
- **snapshot** (`Execute`, first loop): fetch each kept template and write its
  active version into a directory named after the run;
- **reconcile** (`Execute`, second loop): for every file in that directory, find
  the target template of the same name, or create it, and post the version there
  under a name that carries the run id. The output is the list of pairs
  (stored version name, target template id).

`CleanUp` is a standalone operation: it deletes given templates from the target
account, each version first, then the template. `EnsureSuccessStatusCode` is the
check applied to every POST.

The model treats both accounts and the snapshot directory as state:
- An account is a class `SendGridService.Account` with a map from template id to
  template record. Its remote calls are methods that update the map. Each method
  is proved against a function on the account's value (`Catalog`):
  `AddTemplate`, `AddVersion`, `RemoveVersion`, `RemoveTemplate`.
- The snapshot directory is a class `Snapshotter.SnapshotStore` holding a map
  from file name to version record.
- `Execute` and `CleanUp` keep their loops. Each loop is a method whose
  postcondition ties the new state to a function on values:
  - `SaveAll` for the snapshot loop;
  - `ReconcileAll` for the reconcile loop;
  - `Deletes` and `ApplyAll` for cleanup.
- The lemmas prove what the program promises about those functions:
  - find-or-create by name, and failure when a name is listed twice;
  - the renaming of the posted version;
  - one output line per file, in processing order;
  - fail-stop without rollback;
  - overwriting on a name collision;
  - deleting versions before their template.

Things that differ from the program:
- Template and version ids are natural numbers that an account hands out from
  a counter, not strings chosen by the service.
- The answers to POSTs are a parameter `replies`, indexed by the number of POSTs
  sent so far. CleanUp's DELETEs are answered the same way, by a `replies`
  parameter indexed by the request's position in the run.
- The order in which the service lists templates and the directory lists files
  is left open. A method that enumerates a set in an order of its choosing
  stands for both, so every property holds for any order.

Where the design description and the code disagree, the model follows the code:
- The description says a failed DELETE aborts cleanup. `CleanUp` never reads the
  DELETE responses, so it goes on past a rejected delete and does not report it.
  In the model, a DELETE whose reply is not 2xx leaves its version or template
  in place, `CleanUp` sends the same requests whatever the replies, and the
  removal lemmas hold only when every reply is 2xx. A delete of something absent
  changes nothing.
- The description says a failed listing is a `ServiceError`. `GetRequest` never
  checks the status, so GETs are modelled as always answering from the account
  state. A template id the source account does not hold ends the snapshot with
  `TemplateNotFound`: in the code, `template.Versions` is null, so `First`
  throws.
- The run directory is named after the minute the run started. A second run in
  the same minute finds the earlier run's files and reconciles them too. The
  model keeps this: `Execute` starts from whatever the store already holds.

## Model

| member | source | states |
|---|---|---|
| `SendGridService.EnsureSuccessStatusCodeIs2xx` | src/sendgrid-template-transfer/Program.cs:170-179 | the check passes exactly for the status class 2xx (`status / 100 == 2`), and a failure carries the response body |
| `SendGridService.Account.List` | src/sendgrid-template-transfer/Program.cs:100 | GET templates returns every template of the account exactly once, as the account holds it, in an order left open |
| `SendGridService.Account.PostTemplate` | src/sendgrid-template-transfer/Program.cs:109 | a rejected POST leaves the account unchanged and yields the body; an accepted one adds one empty template under a fresh id and returns it |
| `SendGridService.Account.PostVersion` | src/sendgrid-template-transfer/Program.cs:117 | a rejected POST leaves the account unchanged; an accepted one appends the payload, under the account's next id and the template's id, to that template only, and keeps the account well formed (every template and version id below the next id) |
| `SendGridService.AddVersionIsFresh` | src/sendgrid-template-transfer/Program.cs:117 | the id an accepted version POST hands out is held by no version already in the account |
| `SendGridService.Account.DeleteVersion` | src/sendgrid-template-transfer/Program.cs:139 | with a 2xx reply, removes the versions with that id from that template; with any other reply, the account is unchanged; either way it stays well formed |
| `SendGridService.Account.DeleteTemplate` | src/sendgrid-template-transfer/Program.cs:141 | with a 2xx reply, removes that template and nothing else; with any other reply, the template stays and the account is unchanged |
| `CatalogReader.MatchingTemplates` | src/sendgrid-template-transfer/Program.cs:52 | every kept template is listed and starts with the prefix, every listed template that starts with it is kept, and no prefix keeps the listing unchanged |
| `CatalogReader.MatchingTemplatesInOrder` | src/sendgrid-template-transfer/Program.cs:52 | the result is the listing at strictly increasing positions, which are exactly the positions whose name starts with the prefix (order kept, duplicates kept) |
| `CatalogReader.MatchingTemplatesOfConcat` | src/sendgrid-template-transfer/Program.cs:52 | filtering a concatenated listing is concatenating the filtered parts |
| `CatalogReader.EmptyPrefixKeepsAll` | src/sendgrid-template-transfer/Program.cs:52 | the empty prefix keeps the whole listing, like no prefix |
| `CatalogReader.GetMatchingTemplates` | src/sendgrid-template-transfer/Program.cs:45-58 | the result is the prefix filter applied to some complete listing of the source account |
| `Snapshotter.SnapshotStore.ListFiles` | src/sendgrid-template-transfer/Program.cs:101 | every file of the directory exactly once, in an order left open |
| `Snapshotter.FirstActiveIndex` | src/sendgrid-template-transfer/Program.cs:90 | finds the first version with `active == 1` (all earlier ones are inactive), and finds none exactly when no version is active |
| `Snapshotter.SaveAll` | src/sendgrid-template-transfer/Program.cs:84-92 | after a completed phase the directory holds its earlier files plus one file per listed name; no file is ever removed |
| `Snapshotter.SaveAllSucceedsIff` | src/sendgrid-template-transfer/Program.cs:84-92 | the phase completes if and only if every listed template exists in the source and has an active version |
| `Snapshotter.SaveAllStopsAtFirstFailure` | src/sendgrid-template-transfer/Program.cs:84-92 | the first template that fails ends the phase with its error, and the directory holds exactly what the templates before it wrote |
| `Snapshotter.SaveAllKeepsOtherFiles` | src/sendgrid-template-transfer/Program.cs:91 | a file whose name no listed template has is left unchanged, whether the phase completes or not |
| `Snapshotter.SavedFileIsLastActiveVersion` | src/sendgrid-template-transfer/Program.cs:91 | after a completed phase, a name's file holds the active version of the last listed template of that name (later writes overwrite earlier ones) |
| `Snapshotter.SaveSnapshots` | src/sendgrid-template-transfer/Program.cs:84-92 | the loop leaves the directory, and returns the error, exactly as `SaveAll` describes |
| `Reconciler.ReferenceOfVersionName` | src/sendgrid-template-transfer/Program.cs:116 | stripping "-runId" from the derived version name gives back the stored name |
| `Reconciler.VersionNameOfReference` | src/sendgrid-template-transfer/Program.cs:116 | any name that ends in "-runId" is the derived name of what is left once that suffix is stripped |
| `Reconciler.CarriesKeepsContent` | src/sendgrid-template-transfer/Program.cs:114-117 | the posted version keeps html, plain text, subject, active flag and timestamp, and is named "<stored name>-<runId>" |
| `Reconciler.PostVersionStep` | src/sendgrid-template-transfer/Program.cs:117 | posting a version keeps the set of templates and keeps the account well formed |
| `Reconciler.ReconcileOne` | src/sendgrid-template-transfer/Program.cs:103-120 | one file's step only adds templates and keeps the account well formed |
| `Reconciler.ReconcileAll` | src/sendgrid-template-transfer/Program.cs:101-121 | the loop only adds templates and keeps the account well formed; it produces at most one line per file, and all of them exactly when it completes |
| `Reconciler.StepRejectsAmbiguousName` | src/sendgrid-template-transfer/Program.cs:104 | a name listed more than once in the target fails the step before any request is sent |
| `Reconciler.StepGrows` | src/sendgrid-template-transfer/Program.cs:104-117 | a step never removes or renames a template and never removes a version |
| `Reconciler.StepReusesShell` | src/sendgrid-template-transfer/Program.cs:104-110 | with exactly one listed template of the name, no template is created and the version goes to that template's id |
| `Reconciler.StepCreatesShell` | src/sendgrid-template-transfer/Program.cs:106-110 | with no listed template of the name and an accepted POST, exactly one template, with that name and a fresh id, is created and used |
| `Reconciler.StepFailsOnRejectedPost` | src/sendgrid-template-transfer/Program.cs:164-165 | a step that fails after the name lookup failed on a POST whose reply is not 2xx, and carries that reply's body |
| `Reconciler.StepAttachesVersion` | src/sendgrid-template-transfer/Program.cs:113-120 | a completed step appends exactly one version carrying the stored content under the new name to a template called after the file, and reports the stored version name with that template's id |
| `Reconciler.ReconcileNeverRollsBack` | src/sendgrid-template-transfer/Program.cs:101-121 | whatever the outcome, every template that was in the target keeps its name and all its versions |
| `Reconciler.ReconcileStopsAtFailure` | src/sendgrid-template-transfer/Program.cs:101-121 | once a file fails, files after it have no effect on the target, the output, the requests or the error |
| `Reconciler.ReconcileOutputLine` | src/sendgrid-template-transfer/Program.cs:115-120 | output line i belongs to file i: the stored version's name, and a target template called after the file that holds a version carrying that content |
| `Reconciler.NamedCountsListedIds` | src/sendgrid-template-transfer/Program.cs:104 | with distinct listed ids, the number of matches the lookup finds is the number of distinct templates of that name |
| `Reconciler.ListingSeesAllNames` | src/sendgrid-template-transfer/Program.cs:100 | a complete listing sees exactly the account's templates of each name |
| `Reconciler.StepNamedIds` | src/sendgrid-template-transfer/Program.cs:104-110 | a step leaves other names' templates alone, reuses the single template of its own name, or adds exactly one new one when none was listed |
| `Reconciler.ReconcileLeavesOtherNames` | src/sendgrid-template-transfer/Program.cs:101-121 | the set of templates called a name that no file has is the same after the loop: none removed, none added |
| `Reconciler.StepLeavesOtherTemplates` | src/sendgrid-template-transfer/Program.cs:104-117 | a step leaves every template of another name exactly as it was, versions included |
| `Reconciler.ReconcileLeavesOtherTemplates` | src/sendgrid-template-transfer/Program.cs:101-121 | whatever the outcome, a template whose name no file has is exactly the same after the loop, versions included |
| `Reconciler.ReconcileLeavesOneTemplatePerName` | src/sendgrid-template-transfer/Program.cs:100-110 | after a completed loop, each processed name that had no template has exactly one, and a name that had one keeps exactly that one |
| `Reconciler.ReconcileFile` | src/sendgrid-template-transfer/Program.cs:103-120 | the loop body, run on the target account, leaves the account, the POST count and the line or error exactly as `ReconcileOne` describes |
| `Reconciler.Reconcile` | src/sendgrid-template-transfer/Program.cs:95-121 | the loop leaves the target, and returns the output or the error, exactly as `ReconcileAll` describes |
| `Cleanup.VersionDeletesTouchOnlyTheirTemplate` | src/sendgrid-template-transfer/Program.cs:137-140 | whatever the replies, deleting one template's versions keeps every template id and leaves all other templates as they were |
| `Cleanup.BlockRemovesTemplate` | src/sendgrid-template-transfer/Program.cs:136-141 | when the service accepts each of them, one template's requests remove exactly that template |
| `Cleanup.CleanUpRemovesGivenTemplates` | src/sendgrid-template-transfer/Program.cs:134-142 | when every DELETE reply is 2xx, the account afterwards is the original without the given template ids; nothing else changes |
| `Cleanup.ApplyAllKeepsValid` | src/sendgrid-template-transfer/Program.cs:134-142 | whatever the replies, deletes keep the account well formed and hand out no id |
| `Cleanup.ApplyAllRemovesOnlyAcceptedTemplates` | src/sendgrid-template-transfer/Program.cs:139-141 | a template is there after the deletes exactly when it was there before and the service accepted none of the deletes of that template |
| `Cleanup.ApplyAllLeavesRejectedTemplate` | src/sendgrid-template-transfer/Program.cs:139-141 | a template whose every request was rejected, or that no request names, is exactly as it was, versions included |
| `Cleanup.CleanUpLeavesNothingToFind` | src/sendgrid-template-transfer/Program.cs:134-142 | when every DELETE reply is 2xx, afterwards no given template, and none of its listed versions, can be found |
| `Cleanup.DeletesInOrder` | src/sendgrid-template-transfer/Program.cs:134-142 | each template's requests form one block after those of the earlier templates: each listed version in turn, then the template |
| `Cleanup.DeleteVersions` | src/sendgrid-template-transfer/Program.cs:137-140 | the inner loop sends one version delete per listed version, in order, whatever the replies, and leaves the account as `ApplyAll` of them and their replies describes |
| `Cleanup.DeleteBlock` | src/sendgrid-template-transfer/Program.cs:136-141 | one pass of the outer loop sends exactly one template's requests (`Block`), whatever the replies, and leaves the account as `ApplyAll` of them and their replies describes |
| `Cleanup.CleanUp` | src/sendgrid-template-transfer/Program.cs:129-144 | sends exactly the requests `Deletes` lists, whatever the replies, and leaves the account as `ApplyAll` of them and their replies describes |
| `Transfer.Execute` | src/sendgrid-template-transfer/Program.cs:74-127 | the snapshot phase writes the directory as `SaveAll` describes; if it fails, the run ends with its error and the target is untouched; otherwise the target is reconciled as `ReconcileAll` describes, for one complete listing and one order of the directory's files |
| `Scenario.ScenarioFilter` | src/sendgrid-template-transfer/Program.cs:52 | ["promo-welcome", "promo-digest", "other"] filtered by "promo" is the two promo templates, in order |
| `Scenario.ScenarioSnapshot` | src/sendgrid-template-transfer/Program.cs:84-92 | snapshotting the two promo templates writes two files, each holding its template's active version |
| `Scenario.ScenarioReconcile` | src/sendgrid-template-transfer/Program.cs:100-121 | reconciling the two files into an empty target creates two templates, each with one version named "<name>-202401010900", and outputs exactly the two pairs |

## Left out

- `Main`, `Configure` and `Highlight`, together with all console input and output (prompts, progress messages, printing the output list): these are interactive shell and configuration code.
- HTTP transport and JSON: each remote call is an operation on the account state, and the snapshot files hold `Version` records directly, so the serialisation round trip is the identity.
- GET failures and malformed GET answers: `GetRequest` applies no status check, and what it does with an error body depends on the JSON library.
- Directory and file APIs: the directory is a map keyed by template name. The model does not capture path building, the ".json" extension, names with characters a file name cannot hold, case-insensitive file systems where two names collide, or I/O errors.
- `DateTime.Now`: the run id is a parameter.
- async/await: the program is strictly sequential, so its calls are ordinary method calls.
- Null template names, and the culture-sensitive comparison of `String.StartsWith(string)`: the filter is an ordinal prefix test on non-null strings.
- Null version names and timestamps: `Version.name` and `updatedAt` are strings that are never null, so the case where `$"{null}-{runId}"` gives "-runId" is not modelled.
- The service's rule that one version per template is active: `AddVersion` keeps the payload's `active` flag and leaves the other versions as they were, so after a shell is reused two versions can both be active. This is also why `ReconcileNeverRollsBack` can say that earlier versions are kept unchanged, active flags included.
- The output line's text format (`"<name>": "<id>"`): the output is a list of pairs.
- Service-assigned string ids: ids are natural numbers from one counter per account.
- `Transfer.Execute`: says that the listing and the file order are some complete enumeration. It does not pin them to the service's or the file system's actual order, which the program does not control either.
- `Snapshotter.SaveAll`: after a failed phase it states only that no file is removed. `SaveAllStopsAtFirstFailure` gives the exact contents.
