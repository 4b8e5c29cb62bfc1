/** Which resources may reference an instance (internal/controller/common.go): the check
    every controller makes before it acts, as config sync has to agree with it. */
module InstanceAccess {
  import opened Versioned

  datatype Kind = VirtualKey | Team | User | Organization | Budget | Customer | Model | Credential | Guardrail

  /** The kinds spec.allowedNamespaces.kinds may list. */
  const LISTABLE: set<Kind> := {VirtualKey, Team, User, Organization, Budget, Customer}

  /** Same is also what an unknown value means. */
  datatype NamespacesFrom = Same | All | Selector

  datatype AllowedNamespaces = AllowedNamespaces(from: NamespacesFrom, hasSelector: bool, kinds: seq<Kind>)

  datatype Instance = Instance(name: string, namespace: string, allowed: Option<AllowedNamespaces>)

  datatype InstanceRef = InstanceRef(name: string, namespace: string)

  /** What parsing the selector, fetching the namespace and matching its labels gives:
      an answer, or None for an error. */
  type Lookup = Option<bool>

  function NamespaceOr(ref: InstanceRef, namespace: string): string {
    if ref.namespace != "" then ref.namespace else namespace
  }

  predicate ReferencesInstance(namespace: string, ref: InstanceRef, instance: Instance) {
    ref.name == instance.name && NamespaceOr(ref, namespace) == instance.namespace
  }

  /** instanceAllowsNamespace; None is its error. */
  function AllowsNamespace(instance: Instance, namespace: string, lookup: Lookup): Option<bool> {
    if namespace == instance.namespace then Some(true)
    else match instance.allowed
      case None => Some(false)
      case Some(a) =>
        match a.from
        case All => Some(true)
        case Selector => if a.hasSelector then lookup else Some(false)
        case Same => Some(false)
  }

  /** AllowedNamespaces.AllowsKind. */
  predicate ListsKind(allowed: Option<AllowedNamespaces>, kind: Kind) {
    match allowed
    case None => false
    case Some(a) => if a.kinds == [] then kind == VirtualKey else kind in a.kinds
  }

  /** instanceAllowsKind. */
  predicate AllowsKind(instance: Instance, namespace: string, kind: Kind) {
    namespace == instance.namespace || ListsKind(instance.allowed, kind)
  }

  /** What a controller needs of an instance. */
  datatype Served = Served(instance: Instance, ready: bool, hasMasterKey: bool)

  datatype RefCheck =
    | Resolved(instance: Instance)
    | InstanceNotFound
    | CheckFailed
    | NotPermitted
    | NotReady
    | NoMasterKey

  /** resolveInstanceRef. Instances are keyed by namespace and name; `lookup` is what a
      lookup of the referencing namespace gives. */
  function ResolveInstanceRef(
    instances: map<(string, string), Served>,
    namespace: string,
    kind: Kind,
    ref: InstanceRef,
    lookup: Lookup,
    checkAllowed: bool): RefCheck
  {
    var key := (NamespaceOr(ref, namespace), ref.name);
    if key !in instances then InstanceNotFound
    else
      var served := instances[key];
      var allowed := if checkAllowed then AllowsNamespace(served.instance, namespace, lookup) else Some(true);
      if allowed.None? then CheckFailed
      else if !allowed.value then NotPermitted
      else if checkAllowed && !AllowsKind(served.instance, namespace, kind) then NotPermitted
      else if !served.ready then NotReady
      else if !served.hasMasterKey then NoMasterKey
      else Resolved(served.instance)
  }

  /** The reference check let the resource through; what remains is readiness. */
  predicate Admitted(r: RefCheck) {
    r.Resolved? || r.NotReady? || r.NoMasterKey?
  }
}
