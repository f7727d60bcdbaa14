/** The records the templating service exchanges: a template and its versions. */
module TemplatesModel {
  import opened Common

  /** Identifiers are opaque tokens the service hands out; only their equality
      matters, so they are naturals here. */
  type Id = nat

  /** One version of a template. `active` is the service's 0/1 flag; the content
      fields may be absent. */
  datatype Version = Version(
    id: Id,
    templateId: Id,
    active: int,
    name: string,
    updatedAt: string,
    htmlContent: Option<string>,
    plainContent: Option<string>,
    subject: Option<string>)

  /** A named template with its versions, in the order the service returns them. */
  datatype Template = Template(id: Id, name: string, versions: seq<Version>)
}
