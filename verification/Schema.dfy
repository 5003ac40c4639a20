/** The part of the ent schema that the eager loaders depend on: which entity an edge
    starts from and leads to, and which columns carry the relation.

    Every generated `load*` function is one of three templates, chosen by the relation of
    its edge; `Relation` records which one and with which columns. */
module Schema {

  datatype Kind =
    | Account | Group | Proxy | UsageLog | AccountGroup
    | User | APIKey
    | AuthIdentity | AuthIdentityChannel | IdentityAdoptionDecision

  datatype Col =
    | ID
    | ProxyID | ParentAccountID | BackupProxyID | AccountID | GroupID | APIKeyID | UserID | IdentityID
    | Attr(name: string)

  datatype Edge =
    | AccountToGroups | AccountToProxy | AccountToParent | AccountToChildren
    | AccountToUsageLogs | AccountToAccountGroups
    | GroupToAccounts | ProxyToAccounts | ProxyToBackupProxy
    | AccountGroupToAccount | AccountGroupToGroup
    | APIKeyToUser | APIKeyToGroup | APIKeyToUsageLogs
    | AuthIdentityToUser | AuthIdentityToChannels | AuthIdentityToAdoptionDecisions

  datatype Relation =
    // Join table, its column pointing back at the source, its column pointing at the target.
    | M2M(join: Kind, outCol: Col, inCol: Col)
    // Foreign key held by the source; a nullable key is a Go pointer.
    | M2O(fk: Col, nullable: bool)
    // Foreign key held by the target.
    | O2M(fk: Col, nullable: bool)

  function Source(e: Edge): Kind {
    match e
    case AccountToGroups => Account
    case AccountToProxy => Account
    case AccountToParent => Account
    case AccountToChildren => Account
    case AccountToUsageLogs => Account
    case AccountToAccountGroups => Account
    case GroupToAccounts => Group
    case ProxyToAccounts => Proxy
    case ProxyToBackupProxy => Proxy
    case AccountGroupToAccount => AccountGroup
    case AccountGroupToGroup => AccountGroup
    case APIKeyToUser => APIKey
    case APIKeyToGroup => APIKey
    case APIKeyToUsageLogs => APIKey
    case AuthIdentityToUser => AuthIdentity
    case AuthIdentityToChannels => AuthIdentity
    case AuthIdentityToAdoptionDecisions => AuthIdentity
  }

  function Target(e: Edge): Kind {
    match e
    case AccountToGroups => Group
    case AccountToProxy => Proxy
    case AccountToParent => Account
    case AccountToChildren => Account
    case AccountToUsageLogs => UsageLog
    case AccountToAccountGroups => AccountGroup
    case GroupToAccounts => Account
    case ProxyToAccounts => Account
    case ProxyToBackupProxy => Proxy
    case AccountGroupToAccount => Account
    case AccountGroupToGroup => Group
    case APIKeyToUser => User
    case APIKeyToGroup => Group
    case APIKeyToUsageLogs => UsageLog
    case AuthIdentityToUser => User
    case AuthIdentityToChannels => AuthIdentityChannel
    case AuthIdentityToAdoptionDecisions => IdentityAdoptionDecision
  }

  function Rel(e: Edge): Relation {
    match e
    case AccountToGroups => M2M(AccountGroup, AccountID, GroupID)
    case AccountToProxy => M2O(ProxyID, true)
    case AccountToParent => M2O(ParentAccountID, true)
    case AccountToChildren => O2M(ParentAccountID, true)
    case AccountToUsageLogs => O2M(AccountID, false)
    case AccountToAccountGroups => O2M(AccountID, false)
    case GroupToAccounts => M2M(AccountGroup, GroupID, AccountID)
    case ProxyToAccounts => O2M(ProxyID, true)
    case ProxyToBackupProxy => M2O(BackupProxyID, true)
    case AccountGroupToAccount => M2O(AccountID, false)
    case AccountGroupToGroup => M2O(GroupID, false)
    case APIKeyToUser => M2O(UserID, false)
    case APIKeyToGroup => M2O(GroupID, true)
    case APIKeyToUsageLogs => O2M(APIKeyID, false)
    case AuthIdentityToUser => M2O(UserID, false)
    case AuthIdentityToChannels => O2M(IdentityID, false)
    case AuthIdentityToAdoptionDecisions => O2M(IdentityID, true)
  }

  /** The edges of an entity, in the order in which its `sqlAll` loads them. */
  function EdgesOf(kind: Kind): seq<Edge> {
    match kind
    case Account => [AccountToGroups, AccountToProxy, AccountToParent, AccountToChildren,
                     AccountToUsageLogs, AccountToAccountGroups]
    case Group => [GroupToAccounts]
    case Proxy => [ProxyToAccounts, ProxyToBackupProxy]
    case AccountGroup => [AccountGroupToAccount, AccountGroupToGroup]
    case APIKey => [APIKeyToUser, APIKeyToGroup, APIKeyToUsageLogs]
    case AuthIdentity => [AuthIdentityToUser, AuthIdentityToChannels, AuthIdentityToAdoptionDecisions]
    case UsageLog => []
    case User => []
    case AuthIdentityChannel => []
    case IdentityAdoptionDecision => []
  }

  /** AccountGroup has a composite key and no ID column. */
  predicate HasID(kind: Kind) {
    kind != AccountGroup
  }

  lemma EdgesOfComplete(e: Edge)
    ensures e in EdgesOf(Source(e))
  {
    var es := EdgesOf(Source(e));
    match e
    case AccountToProxy => assert es[1] == e;
    case AccountToParent => assert es[2] == e;
    case AccountToChildren => assert es[3] == e;
    case AccountToUsageLogs => assert es[4] == e;
    case AccountToAccountGroups => assert es[5] == e;
    case ProxyToBackupProxy => assert es[1] == e;
    case AccountGroupToGroup => assert es[1] == e;
    case APIKeyToGroup => assert es[1] == e;
    case APIKeyToUsageLogs => assert es[2] == e;
    case AuthIdentityToChannels => assert es[1] == e;
    case AuthIdentityToAdoptionDecisions => assert es[2] == e;
    case _ => assert es[0] == e;
  }

  lemma EdgesOfDistinct(kind: Kind)
    ensures forall i, j :: 0 <= i < j < |EdgesOf(kind)| ==> EdgesOf(kind)[i] != EdgesOf(kind)[j]
    ensures forall e :: e in EdgesOf(kind) ==> Source(e) == kind
  {
  }
}
