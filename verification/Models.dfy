/** Records and enumerations of the registry, and the two computations models.py makes on them. */
module Models {
  import opened Common

  datatype Verification = Verified | Pending | Unverified

  datatype Status = Up | Misconfigured | MissingEntity | UpgradeRequired | ServerError | Down

  datatype DomainKind = Standard | Ephemeral | PerUser

  datatype Policy = Allow | Deny

  datatype MembershipStatus = UnknownRequest | PendingRequest | DeclinedRequest | ApprovedRequest

  datatype User = User(uid: string)

  datatype Group = Group(name: string)

  datatype Domain = Domain(name: string, value: string, kind: DomainKind, restricted: bool, isDefault: bool)

  datatype Community = Community(owner: Id, name: string)

  datatype Route = Route(
    domain: Id,
    community: Option<Id>,
    name: string,
    src: string,
    dst: string,
    token: string,
    owners: set<Id>,
    verification: Verification,
    status: Status,
    lastContact: Time)

  datatype Rule = Rule(route: Id, entity: Id, policy: Policy)

  datatype MembershipRequest = MembershipRequest(entity: Id, community: Id, route: Id, status: MembershipStatus)

  /** The part of a fetched authorization file under `allowed` or `disallowed`; either list may be absent. */
  datatype Section = Section(users: Option<seq<string>>, groups: Option<seq<string>>)

  /** A schema-valid authorization file: the schema requires neither section. */
  datatype Document = Document(allowed: Option<Section>, disallowed: Option<Section>)

  datatype EntitySet = EntitySet(users: seq<string>, groups: seq<string>)

  datatype Authorization = Authorization(allowed: EntitySet, disallowed: EntitySet)

  /** A list that may be absent; an absent one reads as empty. */
  function Given(list: Option<seq<string>>): seq<string> {
    if list.Some? then list.value else []
  }

  function SectionEntities(section: Section): EntitySet {
    EntitySet(Given(section.users), Given(section.groups))
  }

  /** Building an Authorization indexes both sections: an absent one is a KeyError, an absent list is empty. */
  function ParseAuthorization(doc: Document): (r: Result<Authorization>)
    ensures r.Ok? <==> doc.allowed.Some? && doc.disallowed.Some?
    ensures r.Err? ==> r.error == KeyError
    ensures r.Ok? ==>
      && r.value.allowed.users == Given(doc.allowed.value.users)
      && r.value.allowed.groups == Given(doc.allowed.value.groups)
      && r.value.disallowed.users == Given(doc.disallowed.value.users)
      && r.value.disallowed.groups == Given(doc.disallowed.value.groups)
  {
    if doc.allowed.None? || doc.disallowed.None? then Err(KeyError)
    else Ok(Authorization(SectionEntities(doc.allowed.value), SectionEntities(doc.disallowed.value)))
  }

  /** The name under which an app is published: prefixed by its user, suffixed by a fresh UUID, or as given. */
  function AppName(kind: DomainKind, name: string, uid: string, uuid: string): string {
    match kind
    case PerUser => uid + "-" + name
    case Ephemeral => name + "-" + uuid
    case Standard => name
  }

  /** `https://` netloc path, where urlunparse puts a slash before a path that has none. */
  function SrcUrl(domain: Domain, name: string, uid: string, uuid: string, bindSubdomain: bool): string {
    var app := AppName(domain.kind, name, uid, uuid);
    if bindSubdomain then
      "https://" + app + "." + domain.value + "/"
    else
      "https://" + domain.value + (if app == "" || app[0] == '/' then app else "/" + app)
  }
}
