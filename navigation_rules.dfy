/**
 * The rule table behind `local_session_extend_settings_navigation`, as pure
 * functions: the insertion anchor, the ten capability-gated nodes in the
 * order the source adds them, and the list of keys to hide, built with PHP's
 * key-wise array union.
 */
module NavigationRules {
  import opened Wrappers
  import opened PhpStrings
  import opened SettingsTree

  /** The capabilities the contributor checks with `has_capability` in the course context. */
  datatype Capability =
    | CapUpdate | CapContentBank | CapViewParticipants | CapImportUsers | CapOutlineReport
    | CapCompletionReport | CapProgressReport | CapManageGroups | CapGraderReport
    | CapViewAllGrades | CapDuplicateSession

  /** The name under which the host knows each capability. */
  function CapabilityName(c: Capability): string
  {
    match c
    case CapUpdate => "local/session:update"
    case CapContentBank => "moodle/contentbank:access"
    case CapViewParticipants => "moodle/course:viewparticipants"
    case CapImportUsers => "local/mentor_core:importusers"
    case CapOutlineReport => "report/outline:view"
    case CapCompletionReport => "report/completion:view"
    case CapProgressReport => "report/progress:view"
    case CapManageGroups => "moodle/course:managegroups"
    case CapGraderReport => "gradereport/grader:view"
    case CapViewAllGrades => "moodle/grade:viewall"
    case CapDuplicateSession => "local/mentor_core:duplicatesessionintotraining"
  }

  /** Every capability the contributor checks. */
  const AllCapabilities: set<Capability> := {
    CapUpdate, CapContentBank, CapViewParticipants, CapImportUsers, CapOutlineReport,
    CapCompletionReport, CapProgressReport, CapManageGroups, CapGraderReport,
    CapViewAllGrades, CapDuplicateSession
  }

  /**
   * The session's status: one of the three the contributor tests for, or
   * any status other than those three (the model needs no more of it).
   */
  datatype SessionStatus = Archived | Completed | Cancelled | OtherStatus

  /** The session linked to the course: status, course id, context id and its own id. */
  datatype Session = Session(status: SessionStatus, courseId: int, contextId: int, id: int)

  /** Users may still be enrolled: the session is neither archived, completed nor cancelled. */
  predicate EnrolmentOpen(status: SessionStatus)
  {
    status != Archived && status != Completed && status != Cancelled
  }

  /** The ten nodes the contributor may add. */
  datatype NodeKey =
    | Training | ContentBank | EnrolledUsers | EnrollUsers | CourseActivities
    | TrainingCompletionReport | ActivitiesCompletionReport | Group | Notes | SessionToTraining

  /** The key string each node is created with. */
  function KeyName(k: NodeKey): string
  {
    match k
    case Training => "training"
    case ContentBank => "content_bank"
    case EnrolledUsers => "enrolled_users"
    case EnrollUsers => "enroll_users"
    case CourseActivities => "course_activities"
    case TrainingCompletionReport => "training_completion_report"
    case ActivitiesCompletionReport => "activities_completion_report"
    case Group => "group"
    case Notes => "notes"
    case SessionToTraining => "session_to_training"
  }

  /** Different nodes are created with different keys. */
  lemma KeyNameInjective(a: NodeKey, b: NodeKey)
    requires KeyName(a) == KeyName(b)
    ensures a == b
  {
    NodeNamedKeyName(a);
    NodeNamedKeyName(b);
  }

  /** The node whose key is `name`, if any: the inverse of `KeyName`. */
  function NodeNamed(name: string): (r: Option<NodeKey>)
    ensures r.Some? ==> KeyName(r.value) == name
  {
    if name == "training" then Some(Training)
    else if name == "content_bank" then Some(ContentBank)
    else if name == "enrolled_users" then Some(EnrolledUsers)
    else if name == "enroll_users" then Some(EnrollUsers)
    else if name == "course_activities" then Some(CourseActivities)
    else if name == "training_completion_report" then Some(TrainingCompletionReport)
    else if name == "activities_completion_report" then Some(ActivitiesCompletionReport)
    else if name == "group" then Some(Group)
    else if name == "notes" then Some(Notes)
    else if name == "session_to_training" then Some(SessionToTraining)
    else None
  }

  /** Round trip: every node is found again under its key. */
  lemma NodeNamedKeyName(k: NodeKey)
    ensures NodeNamed(KeyName(k)) == Some(k)
  {
    match k
    case Training =>
    case ContentBank =>
    case EnrolledUsers =>
    case EnrollUsers =>
    case CourseActivities =>
    case TrainingCompletionReport =>
    case ActivitiesCompletionReport =>
    case Group =>
    case Notes =>
    case SessionToTraining =>
  }

  function KeyNames(ks: seq<NodeKey>): (r: seq<string>)
    ensures |r| == |ks|
    ensures forall i :: 0 <= i < |ks| ==> r[i] == KeyName(ks[i])
  {
    seq(|ks|, i requires 0 <= i < |ks| => KeyName(ks[i]))
  }

  /** The order in which the contributor adds the nodes. */
  const NodeOrder: seq<NodeKey> := [
    Training, ContentBank, EnrolledUsers, EnrollUsers, CourseActivities,
    TrainingCompletionReport, ActivitiesCompletionReport, Group, Notes, SessionToTraining
  ]

  /** The nodes of the first five `if`s, one after another, as they run. */
  const FirstFive: seq<NodeKey> := [] + [Training] + [ContentBank] + [EnrolledUsers] + [EnrollUsers] + [CourseActivities]

  /** `NodeOrder` is the order of the source's `if`s, one node after another. */
  lemma NodeOrderAsWritten()
    ensures FirstFive
      + [TrainingCompletionReport] + [ActivitiesCompletionReport] + [Group] + [Notes] + [SessionToTraining]
      == NodeOrder
  {
  }

  /** Reference table: whether a node is added, for the given capabilities and session status. */
  predicate Gate(k: NodeKey, caps: set<Capability>, status: SessionStatus)
  {
    match k
    case Training => CapUpdate in caps
    case ContentBank => CapContentBank in caps
    case EnrolledUsers => CapViewParticipants in caps
    case EnrollUsers => EnrolmentOpen(status) && CapImportUsers in caps
    case CourseActivities => CapOutlineReport in caps
    case TrainingCompletionReport => CapCompletionReport in caps
    case ActivitiesCompletionReport => CapProgressReport in caps
    case Group => CapManageGroups in caps
    case Notes => CapGraderReport in caps && CapViewAllGrades in caps
    case SessionToTraining => CapDuplicateSession in caps
  }

  /** The nodes of `ks` whose gate holds, in their order. */
  function GatedNodes(ks: seq<NodeKey>, caps: set<Capability>, status: SessionStatus): (r: seq<NodeKey>)
    ensures |r| <= |ks|
    ensures forall k :: k in r <==> k in ks && Gate(k, caps, status)
    decreases |ks|
  {
    if ks == [] then []
    else
      var last := ks[|ks| - 1];
      GatedNodes(ks[..|ks| - 1], caps, status) + (if Gate(last, caps, status) then [last] else [])
  }

  /**
   * `$beforekey`: `'editsettings'` when the course-admin node has a child with
   * that key, and null otherwise.
   */
  function Anchor(children: seq<Child>): (r: Option<string>)
    ensures r == Some("editsettings") <==> "editsettings" in Keys(children)
    ensures r.None? <==> "editsettings" !in Keys(children)
  {
    if FirstIndex(children, "editsettings").Some? then Some("editsettings") else None
  }

  /**
   * `$contextid` where the content-bank link reads it: the session's context
   * id if the update branch ran and assigned it, unset otherwise.
   */
  function ContextIdAtContentBank(caps: set<Capability>, s: Session): (r: Option<int>)
    ensures r.Some? <==> CapUpdate in caps
    ensures r.Some? ==> r.value == s.contextId
  {
    if CapUpdate in caps then Some(s.contextId) else None
  }

  /**
   * The `navigation_node::create` call of the source for `k`: the key, the
   * link and the node type. `contextId` is the value `$contextid` has at
   * that point; `s` supplies the course id and the session id.
   */
  function CreateNode(k: NodeKey, s: Session, contextId: Option<int>, pageUrl: string): (n: NewNode)
    ensures n.key == KeyName(k)
  {
    var courseId := Some(s.courseId);
    match k
    case Training =>
      NewNode(KeyName(k), SessionSheet(pageUrl), Leaf)
    case ContentBank =>
      NewNode(KeyName(k), Route("/contentbank/index.php", "contextid", contextId), Leaf)
    case EnrolledUsers =>
      NewNode(KeyName(k), Route("/user/index.php", "id", courseId), Leaf)
    case EnrollUsers =>
      NewNode(KeyName(k), Route("/local/mentor_core/pages/importcsv.php", "courseid", courseId), UserType)
    case CourseActivities =>
      NewNode(KeyName(k), Route("/report/outline/index.php", "id", courseId), Leaf)
    case TrainingCompletionReport =>
      NewNode(KeyName(k), Route("/report/completion/index.php", "course", courseId), Leaf)
    case ActivitiesCompletionReport =>
      NewNode(KeyName(k), Route("/report/progress/index.php?", "course", courseId), Leaf)
    case Group =>
      NewNode(KeyName(k), Route("/group/index.php?", "id", courseId), Leaf)
    case Notes =>
      NewNode(KeyName(k), Route("/grade/report/grader/index.php", "id", courseId), Leaf)
    case SessionToTraining =>
      NewNode(KeyName(k), Route("/local/mentor_core/pages/duplicatesession.php", "sessionid", Some(s.id)), UserType)
  }

  /**
   * Only the enrolment and duplication links are user-type nodes, and only
   * the first one links to the session sheet, returning to the current page.
   */
  lemma CreateNodeShape(k: NodeKey, s: Session, contextId: Option<int>, pageUrl: string)
    ensures CreateNode(k, s, contextId, pageUrl).nodeType == UserType <==> k == EnrollUsers || k == SessionToTraining
    ensures CreateNode(k, s, contextId, pageUrl).target.SessionSheet? <==> k == Training
    ensures CreateNode(k, s, contextId, pageUrl).target.SessionSheet? ==> CreateNode(k, s, contextId, pageUrl).target.returnUrl == pageUrl
  {
  }

  /** The `add_node` call for `k`: the node created with `$contextid` as the update branch left it. */
  function NodeFor(k: NodeKey, caps: set<Capability>, s: Session, before: Option<string>, pageUrl: string): (a: Addition)
    ensures a.node.key == KeyName(k) && a.beforeKey == before
  {
    Addition(CreateNode(k, s, ContextIdAtContentBank(caps, s), pageUrl), before)
  }

  function NodesFor(ks: seq<NodeKey>, caps: set<Capability>, s: Session, before: Option<string>, pageUrl: string): (r: seq<Addition>)
    ensures |r| == |ks|
    decreases |ks|
  {
    if ks == [] then []
    else NodesFor(ks[..|ks| - 1], caps, s, before, pageUrl) + [NodeFor(ks[|ks| - 1], caps, s, before, pageUrl)]
  }

  /** The `i`-th call is the one for the `i`-th node. */
  lemma {:induction false} NodesForAt(ks: seq<NodeKey>, caps: set<Capability>, s: Session, before: Option<string>, pageUrl: string, i: nat)
    requires i < |ks|
    ensures NodesFor(ks, caps, s, before, pageUrl)[i] == NodeFor(ks[i], caps, s, before, pageUrl)
    decreases |ks|
  {
    if i < |ks| - 1 {
      var init := ks[..|ks| - 1];
      NodesForAt(init, caps, s, before, pageUrl, i);
      assert init[i] == ks[i];
    }
  }

  /**
   * The `add_node` calls the contributor makes, in order: one for every gated
   * node of `NodeOrder`, for the given capabilities, session, anchor and
   * current page URL (the sheet link's return address).
   */
  function Planned(caps: set<Capability>, s: Session, before: Option<string>, pageUrl: string): seq<Addition>
  {
    NodesFor(GatedNodes(NodeOrder, caps, s.status), caps, s, before, pageUrl)
  }

  /** One `if` of the contributor: the call it makes when its condition holds. */
  function Opt(granted: bool, a: Addition): seq<Addition>
  {
    if granted then [a] else []
  }

  /** The `if` for `k`: its call when the gate of `k` holds. */
  function When(k: NodeKey, caps: set<Capability>, s: Session, before: Option<string>, pageUrl: string): seq<Addition>
  {
    Opt(Gate(k, caps, s.status), NodeFor(k, caps, s, before, pageUrl))
  }

  /** Gating one more node adds its `if` at the end. */
  lemma PlannedStep(ks: seq<NodeKey>, caps: set<Capability>, s: Session, before: Option<string>, pageUrl: string)
    requires ks != []
    ensures NodesFor(GatedNodes(ks, caps, s.status), caps, s, before, pageUrl)
         == NodesFor(GatedNodes(ks[..|ks| - 1], caps, s.status), caps, s, before, pageUrl)
            + When(ks[|ks| - 1], caps, s, before, pageUrl)
  {
    var k := ks[|ks| - 1];
    var g := GatedNodes(ks[..|ks| - 1], caps, s.status);
    if Gate(k, caps, s.status) {
      assert GatedNodes(ks, caps, s.status) == g + [k];
      assert (g + [k])[..|g|] == g;
    } else {
      assert GatedNodes(ks, caps, s.status) == g + [];
      assert g + [] == g;
      assert NodesFor(g, caps, s, before, pageUrl) + [] == NodesFor(g, caps, s, before, pageUrl);
    }
  }

  /** The source's `if`s for the nodes of `ks`, one after another. */
  function Whens(ks: seq<NodeKey>, caps: set<Capability>, s: Session, before: Option<string>, pageUrl: string): seq<Addition>
    decreases |ks|
  {
    if ks == [] then []
    else Whens(ks[..|ks| - 1], caps, s, before, pageUrl) + When(ks[|ks| - 1], caps, s, before, pageUrl)
  }

  /** Building the calls from the gated nodes is running the `if`s in order. */
  lemma {:induction false} GatedIsWhens(ks: seq<NodeKey>, caps: set<Capability>, s: Session, before: Option<string>, pageUrl: string)
    ensures NodesFor(GatedNodes(ks, caps, s.status), caps, s, before, pageUrl) == Whens(ks, caps, s, before, pageUrl)
    decreases |ks|
  {
    if ks != [] {
      GatedIsWhens(ks[..|ks| - 1], caps, s, before, pageUrl);
      PlannedStep(ks, caps, s, before, pageUrl);
    }
  }

  /** Running one more `if` after those of `ks`. */
  lemma WhensSnoc(ks: seq<NodeKey>, k: NodeKey, caps: set<Capability>, s: Session, before: Option<string>, pageUrl: string)
    ensures Whens(ks + [k], caps, s, before, pageUrl) == Whens(ks, caps, s, before, pageUrl) + When(k, caps, s, before, pageUrl)
  {
    assert (ks + [k])[..|ks|] == ks;
  }

  /**
   * The keys of the `add_node` calls are the names of the gated nodes, in the
   * fixed order of `NodeOrder`; there is one call per gate passed.
   */
  lemma PlannedKeys(caps: set<Capability>, s: Session, before: Option<string>, pageUrl: string)
    ensures AdditionKeys(Planned(caps, s, before, pageUrl)) == KeyNames(GatedNodes(NodeOrder, caps, s.status))
    ensures |Planned(caps, s, before, pageUrl)| == |GatedNodes(NodeOrder, caps, s.status)|
  {
    NodesForKeys(GatedNodes(NodeOrder, caps, s.status), caps, s, before, pageUrl);
  }

  /** The calls for a list of nodes carry the nodes' keys. */
  lemma NodesForKeys(ks: seq<NodeKey>, caps: set<Capability>, s: Session, before: Option<string>, pageUrl: string)
    ensures AdditionKeys(NodesFor(ks, caps, s, before, pageUrl)) == KeyNames(ks)
  {
    var p := NodesFor(ks, caps, s, before, pageUrl);
    forall i | 0 <= i < |p| ensures AdditionKeys(p)[i] == KeyNames(ks)[i] {
      NodesForAt(ks, caps, s, before, pageUrl, i);
    }
  }

  /** No node is created with the key of the anchor or of the grade book setup. */
  lemma KeyNameNotHostKey(k: NodeKey)
    ensures KeyName(k) != "editsettings" && KeyName(k) != "gradebooksetup"
  {
    match k
    case Training =>
    case ContentBank =>
    case EnrolledUsers =>
    case EnrollUsers =>
    case CourseActivities =>
    case TrainingCompletionReport =>
    case ActivitiesCompletionReport =>
    case Group =>
    case Notes =>
    case SessionToTraining =>
  }

  /** No list of nodes has a key of the anchor or of the grade book setup. */
  lemma KeyNamesNotHostKeys(ks: seq<NodeKey>)
    ensures "editsettings" !in KeyNames(ks) && "gradebooksetup" !in KeyNames(ks)
  {
    forall i | 0 <= i < |ks|
      ensures KeyNames(ks)[i] != "editsettings" && KeyNames(ks)[i] != "gradebooksetup"
    {
      KeyNameNotHostKey(ks[i]);
    }
  }

  /** The `if`s never create a child keyed `editsettings`, so the anchor stays in place. */
  lemma WhensAvoidAnchor(ks: seq<NodeKey>, caps: set<Capability>, s: Session, before: Option<string>, pageUrl: string)
    ensures "editsettings" !in AdditionKeys(Whens(ks, caps, s, before, pageUrl))
  {
    GatedIsWhens(ks, caps, s, before, pageUrl);
    NodesForKeys(GatedNodes(ks, caps, s.status), caps, s, before, pageUrl);
    KeyNamesNotHostKeys(GatedNodes(ks, caps, s.status));
  }

  /** An `if` whose condition fails leaves the calls as they were. */
  lemma SkippedWhen(ks: seq<NodeKey>, k: NodeKey, caps: set<Capability>, s: Session, before: Option<string>, pageUrl: string)
    requires !Gate(k, caps, s.status)
    ensures Whens(ks + [k], caps, s, before, pageUrl) == Whens(ks, caps, s, before, pageUrl)
  {
    WhensSnoc(ks, k, caps, s, before, pageUrl);
    assert Whens(ks, caps, s, before, pageUrl) + [] == Whens(ks, caps, s, before, pageUrl);
  }

  /** Every `add_node` call is given the same anchor, the one chosen before the first call. */
  lemma PlannedAnchor(caps: set<Capability>, s: Session, before: Option<string>, pageUrl: string)
    ensures forall i :: 0 <= i < |Planned(caps, s, before, pageUrl)| ==> Planned(caps, s, before, pageUrl)[i].beforeKey == before
  {
    var g := GatedNodes(NodeOrder, caps, s.status);
    forall i | 0 <= i < |Planned(caps, s, before, pageUrl)| ensures Planned(caps, s, before, pageUrl)[i].beforeKey == before {
      NodesForAt(g, caps, s, before, pageUrl, i);
    }
  }

  /** A node is added if and only if its gate holds. */
  lemma AddedIffGated(caps: set<Capability>, s: Session, before: Option<string>, pageUrl: string, k: NodeKey)
    ensures KeyName(k) in AdditionKeys(Planned(caps, s, before, pageUrl)) <==> Gate(k, caps, s.status)
  {
    var g := GatedNodes(NodeOrder, caps, s.status);
    PlannedKeys(caps, s, before, pageUrl);
    KeyNamesHas(g, k);
    NodeOrderComplete(k);
  }

  /** A node's key is among the names of a node list exactly when the node is in it. */
  lemma KeyNamesHas(ks: seq<NodeKey>, k: NodeKey)
    ensures KeyName(k) in KeyNames(ks) <==> k in ks
  {
    if KeyName(k) in KeyNames(ks) {
      var i :| 0 <= i < |ks| && KeyNames(ks)[i] == KeyName(k);
      KeyNameInjective(ks[i], k);
    }
    if k in ks {
      var i :| 0 <= i < |ks| && ks[i] == k;
      assert KeyNames(ks)[i] == KeyName(k);
    }
  }

  /** Every node has its `if` in the contributor. */
  lemma NodeOrderComplete(k: NodeKey)
    ensures k in NodeOrder
  {
    assert NodeOrder[Rank(k)] == k;
  }

  /** No element of `s` occurs twice. */
  predicate Distinct<T(==)>(s: seq<T>)
  {
    forall i, j :: 0 <= i < j < |s| ==> s[i] != s[j]
  }

  /** The position of each node in `NodeOrder`. */
  function Rank(k: NodeKey): nat
  {
    match k
    case Training => 0
    case ContentBank => 1
    case EnrolledUsers => 2
    case EnrollUsers => 3
    case CourseActivities => 4
    case TrainingCompletionReport => 5
    case ActivitiesCompletionReport => 6
    case Group => 7
    case Notes => 8
    case SessionToTraining => 9
  }

  /** Each node is added by one `if` only. */
  lemma NodeOrderDistinct()
    ensures Distinct(NodeOrder)
  {
    forall i | 0 <= i < |NodeOrder| ensures Rank(NodeOrder[i]) == i {
    }
  }

  /** Gating keeps a list free of repetitions. */
  lemma {:induction false} GatedNodesDistinct(ks: seq<NodeKey>, caps: set<Capability>, status: SessionStatus)
    requires Distinct(ks)
    ensures Distinct(GatedNodes(ks, caps, status))
    decreases |ks|
  {
    if ks != [] {
      var init, last := ks[..|ks| - 1], ks[|ks| - 1];
      assert Distinct(init);
      GatedNodesDistinct(init, caps, status);
      var g := GatedNodes(init, caps, status);
      var r := GatedNodes(ks, caps, status);
      assert last !in init;
      if Gate(last, caps, status) {
        assert r == g + [last];
        forall i, j | 0 <= i < j < |r| ensures r[i] != r[j] {
          if j == |g| {
            assert r[i] == g[i] && g[i] in g;
          } else {
            assert r[i] == g[i] && r[j] == g[j];
          }
        }
      } else {
        assert r == g + [];
      }
    }
  }

  /** No two `add_node` calls of the contributor use the same key. */
  lemma PlannedKeysDistinct(caps: set<Capability>, s: Session, before: Option<string>, pageUrl: string)
    ensures Distinct(AdditionKeys(Planned(caps, s, before, pageUrl)))
  {
    var g := GatedNodes(NodeOrder, caps, s.status);
    NodeOrderDistinct();
    GatedNodesDistinct(NodeOrder, caps, s.status);
    PlannedKeys(caps, s, before, pageUrl);
    var names := KeyNames(g);
    forall i, j | 0 <= i < j < |names| ensures names[i] != names[j] {
      if names[i] == names[j] {
        KeyNameInjective(g[i], g[j]);
      }
    }
  }

  /** No enrolment link for an archived, completed or cancelled session, whatever the capabilities. */
  lemma ClosedSessionHasNoEnrolLink(caps: set<Capability>, s: Session, before: Option<string>, pageUrl: string)
    requires !EnrolmentOpen(s.status)
    ensures "enroll_users" !in AdditionKeys(Planned(caps, s, before, pageUrl))
  {
    AddedIffGated(caps, s, before, pageUrl, EnrollUsers);
  }

  /** The grade book link needs both `gradereport/grader:view` and `moodle/grade:viewall`. */
  lemma NotesNeedsBothGradeCapabilities(caps: set<Capability>, s: Session, before: Option<string>, pageUrl: string)
    ensures "notes" in AdditionKeys(Planned(caps, s, before, pageUrl))
        <==> CapGraderReport in caps && CapViewAllGrades in caps
  {
    AddedIffGated(caps, s, before, pageUrl, Notes);
  }

  /** A list whose every gate passes is kept whole; one whose every gate fails is emptied. */
  lemma {:induction false} GatedNodesExtremes(ks: seq<NodeKey>, caps: set<Capability>, status: SessionStatus)
    ensures (forall k :: k in ks ==> Gate(k, caps, status)) ==> GatedNodes(ks, caps, status) == ks
    ensures (forall k :: k in ks ==> !Gate(k, caps, status)) ==> GatedNodes(ks, caps, status) == []
    decreases |ks|
  {
    if ks != [] {
      var init := ks[..|ks| - 1];
      assert forall k :: k in init ==> k in ks;
      GatedNodesExtremes(init, caps, status);
      assert init + [ks[|ks| - 1]] == ks;
    }
  }

  /** With every capability and a session still open for enrolment, all ten nodes are added, in order. */
  lemma EveryCapabilityAddsEveryNode(caps: set<Capability>, s: Session, before: Option<string>, pageUrl: string)
    requires AllCapabilities <= caps && EnrolmentOpen(s.status)
    ensures AdditionKeys(Planned(caps, s, before, pageUrl)) == KeyNames(NodeOrder)
  {
    GatedNodesExtremes(NodeOrder, caps, s.status);
    PlannedKeys(caps, s, before, pageUrl);
  }

  /** With no capability, no node is added. */
  lemma NoCapabilityAddsNothing(s: Session, before: Option<string>, pageUrl: string)
    ensures Planned({}, s, before, pageUrl) == []
  {
    GatedNodesExtremes(NodeOrder, {}, s.status);
  }

  /** The call that created an addition: `NodeFor` of a gated node. */
  lemma PlannedEntry(caps: set<Capability>, s: Session, before: Option<string>, pageUrl: string, a: Addition)
    returns (k: NodeKey)
    requires a in Planned(caps, s, before, pageUrl)
    ensures Gate(k, caps, s.status) && a == NodeFor(k, caps, s, before, pageUrl)
  {
    var g := GatedNodes(NodeOrder, caps, s.status);
    var i :| 0 <= i < |g| && Planned(caps, s, before, pageUrl)[i] == a;
    k := g[i];
    assert k in g;
    NodesForAt(g, caps, s, before, pageUrl, i);
  }

  /**
   * The content-bank link carries the session's context id only when the
   * update capability is also held; with the content-bank capability alone
   * the PHP variable is unset where the link reads it.
   */
  lemma ContentBankContextId(caps: set<Capability>, s: Session, before: Option<string>, pageUrl: string, a: Addition)
    requires a in Planned(caps, s, before, pageUrl) && a.node.key == "content_bank"
    ensures a.node.target == Route("/contentbank/index.php", "contextid", if CapUpdate in caps then Some(s.contextId) else None)
  {
    var k := PlannedEntry(caps, s, before, pageUrl, a);
    KeyNameInjective(k, ContentBank);
  }

  /**
   * Every other link to a host page takes the id of the session's course (not
   * of the page's course) or, for the duplication page, the session's own id.
   */
  lemma RouteParameters(caps: set<Capability>, s: Session, before: Option<string>, pageUrl: string, a: Addition)
    requires a in Planned(caps, s, before, pageUrl) && a.node.target.Route? && a.node.key != "content_bank"
    ensures a.node.target.value == if a.node.key == "session_to_training" then Some(s.id) else Some(s.courseId)
  {
    var k := PlannedEntry(caps, s, before, pageUrl, a);
    if a.node.key == "session_to_training" {
      KeyNameInjective(k, SessionToTraining);
    }
  }

  /** The base hide list. */
  const RestrictBase: seq<string> := ["gradebooksetup"]

  /** The array literal the base list is `+`-ed with outside the course-admin page. */
  const RestrictOutsideAdmin: seq<string> := [
    "session_to_training", "editsettings", "coursecompletion", "users", "filtermanagement",
    "coursebadges", "import", "backup", "restore", "copy", "reset", "notes"
  ]

  const AdminPagePath: string := "/course/admin.php"

  /**
   * PHP's `+` on two list arrays: a union by index, so an entry of the right
   * operand survives only at an index the left operand does not have.
   */
  function PhpArrayUnion(left: seq<string>, right: seq<string>): (r: seq<string>)
    ensures |r| == if |left| < |right| then |right| else |left|
    ensures forall i :: 0 <= i < |left| ==> r[i] == left[i]
    ensures forall i :: |left| <= i < |right| ==> r[i] == right[i]
  {
    if |left| < |right| then left + right[|left|..] else left
  }

  /** `$restrictlinklist` after lines 249-269: always led by `gradebooksetup`. */
  function HideList(pageUrl: string): (r: seq<string>)
    ensures |r| >= 1 && r[0] == "gradebooksetup"
  {
    if Contains(pageUrl, AdminPagePath) then RestrictBase else PhpArrayUnion(RestrictBase, RestrictOutsideAdmin)
  }

  /** On the course-admin page only `gradebooksetup` is listed. */
  lemma HideListOnAdminPage(pageUrl: string)
    requires Contains(pageUrl, AdminPagePath)
    ensures HideList(pageUrl) == ["gradebooksetup"]
  {
  }

  /** The hide list away from the course-admin page, as the union leaves it. */
  const HideListElsewhere: seq<string> := [
    "gradebooksetup", "editsettings", "coursecompletion", "users", "filtermanagement",
    "coursebadges", "import", "backup", "restore", "copy", "reset", "notes"
  ]

  /**
   * Elsewhere the list has twelve keys: the union keeps the left operand's
   * `gradebooksetup` at index 0 and so drops the right operand's
   * `session_to_training`, which is never listed.
   */
  lemma HideListOutsideAdminPage(pageUrl: string)
    requires !Contains(pageUrl, AdminPagePath)
    ensures HideList(pageUrl) == HideListElsewhere
    ensures |HideList(pageUrl)| == 12
    ensures "session_to_training" !in HideList(pageUrl)
    ensures forall k :: k in RestrictOutsideAdmin && k != "session_to_training" ==> k in HideList(pageUrl)
  {
    var r := HideList(pageUrl);
    assert r == RestrictBase + RestrictOutsideAdmin[1..];
  }

  /**
   * Of the keys the contributor creates, only `notes` is ever on the hide
   * list, and only away from the course-admin page.
   */
  lemma KeyNameListed(k: NodeKey, pageUrl: string)
    ensures KeyName(k) in HideList(pageUrl) <==> k == Notes && !Contains(pageUrl, AdminPagePath)
  {
    if !Contains(pageUrl, AdminPagePath) {
      HideListOutsideAdminPage(pageUrl);
      OnlyNotesElsewhere(k);
    }
  }

  /** The one key name on the list used away from the course-admin page is `notes`. */
  lemma OnlyNotesElsewhere(k: NodeKey)
    ensures KeyName(k) in HideListElsewhere <==> k == Notes
  {
    if k == Notes {
      assert HideListElsewhere[11] == KeyName(k);
    }
  }

  /** Only the grade book node is created with the key `notes`. */
  lemma KeyNameIsNotes(k: NodeKey)
    ensures KeyName(k) == "notes" <==> k == Notes
  {
    match k
    case Notes =>
    case _ =>
      assert KeyName(k) != "notes";
  }

  /** Of the contributor's calls, only the one for `notes` creates a listed key, and only away from the course-admin page. */
  lemma PlannedKeyListed(caps: set<Capability>, s: Session, before: Option<string>, pageUrl: string, n: nat)
    requires n < |Planned(caps, s, before, pageUrl)|
    ensures Planned(caps, s, before, pageUrl)[n].node.key in HideList(pageUrl) <==>
      Planned(caps, s, before, pageUrl)[n].node.key == "notes" && !Contains(pageUrl, AdminPagePath)
  {
    var g := GatedNodes(NodeOrder, caps, s.status);
    var key := Planned(caps, s, before, pageUrl)[n].node.key;
    NodesForAt(g, caps, s, before, pageUrl, n);
    KeyNameListed(g[n], pageUrl);
    KeyNameIsNotes(g[n]);
  }

  /** `session_to_training` is listed for no URL at all. */
  lemma SessionToTrainingNeverListed(pageUrl: string)
    ensures "session_to_training" !in HideList(pageUrl)
  {
    if !Contains(pageUrl, AdminPagePath) {
      HideListOutsideAdminPage(pageUrl);
    }
  }
}
