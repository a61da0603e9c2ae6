/**
 * `local_session_extend_settings_navigation`: the settings-navigation
 * contributor. The `$PAGE` global becomes the `Page` parameter, the session
 * lookup by course id becomes the `session` parameter (`None` when no session
 * is linked), the capability checks become membership in `caps`, and the
 * course-admin node found in the settings tree is `admin` (`null` when the
 * tree has none).
 */
module Navigation {
  import opened Wrappers
  import opened PhpStrings
  import opened SettingsTree
  import opened NavigationRules

  /** What the contributor reads from `$PAGE`: the course id (if any) and the URL. */
  datatype Page = Page(course: Option<int>, url: string)

  /** The site course's id: no links are added on site pages. */
  const SiteCourseId: int := 1

  /** None of the early returns is taken. */
  predicate Proceeds(page: Page, session: Option<Session>)
  {
    page.course.Some? && page.course.value != SiteCourseId && session.Some?
  }

  /** Where the new links go: just before `editsettings` when the node has it, last otherwise. */
  function AnchorPlace(children: seq<Child>): (p: nat)
    ensures p <= |children|
    ensures "editsettings" in Keys(children) ==>
      p < |children| && children[p].key == "editsettings" && NotBefore(children, p, "editsettings")
    ensures "editsettings" !in Keys(children) ==> p == |children|
  {
    Place(children, Anchor(children))
  }

  /** The children once every gated node has been added, before any is hidden. */
  function Extended(children: seq<Child>, caps: set<Capability>, s: Session, pageUrl: string): seq<Child>
  {
    AddedBefore(children, Anchor(children), Planned(caps, s, Anchor(children), pageUrl))
  }

  /** The children after the contributor has run past its early returns. */
  function Contribute(children: seq<Child>, caps: set<Capability>, s: Session, pageUrl: string): seq<Child>
  {
    HideAll(Extended(children, caps, s, pageUrl), HideList(pageUrl))
  }

  /**
   * The contributor. When an early return is taken the node is left exactly
   * as it was. Otherwise the `add_node` calls are those of `Planned`, all
   * with the anchor chosen from the original children, and the children end
   * as `Contribute` says: the new nodes inserted at the anchor, then the hide
   * list applied. The key list is then the original one with the gated
   * nodes' keys at the anchor.
   */
  method ExtendSettingsNavigation(page: Page, session: Option<Session>, caps: set<Capability>, admin: CourseAdminNode?)
    modifies admin
    ensures admin != null && !Proceeds(page, session) ==>
      admin.children == old(admin.children) && admin.additions == old(admin.additions)
    ensures admin != null && Proceeds(page, session) ==>
      admin.additions == old(admin.additions) + Planned(caps, session.value, Anchor(old(admin.children)), page.url) &&
      admin.children == Contribute(old(admin.children), caps, session.value, page.url)
    ensures admin != null && Proceeds(page, session) ==>
      admin.KeyList() == Keys(old(admin.children)[..AnchorPlace(old(admin.children))])
        + KeyNames(GatedNodes(NodeOrder, caps, session.value.status))
        + Keys(old(admin.children)[AnchorPlace(old(admin.children))..])
  {
    if page.course.None? || page.course.value == SiteCourseId {
      return;
    }
    if session.None? {
      return;
    }
    if admin == null {
      return;
    }
    var s := session.value;

    var beforeKey: Option<string> := None;
    if admin.Get("editsettings").Some? {
      beforeKey := Some("editsettings");
    }
    assert beforeKey == Anchor(old(admin.children));

    // `$contextid` is assigned only in the update branch.
    var contextId: Option<int> := None;
    if CapUpdate in caps {
      contextId := Some(s.contextId);
    }
    assert contextId == ContextIdAtContentBank(caps, s);

    AddGranted(admin, caps, s, contextId, beforeKey, page.url);
    HideListed(admin, HideList(page.url));
    ContributeKeys(old(admin.children), caps, s, page.url);
  }

  /**
   * The ten `if`s, in the source's order and with its conditions: one
   * `add_node` call per condition met, each with the anchor `beforeKey`.
   * `contextId` is what the update branch left in `$contextid`. The first
   * five and the last five run as two steps, so that each step's proof stays
   * small.
   */
  method AddGranted(
    admin: CourseAdminNode, caps: set<Capability>, s: Session, contextId: Option<int>,
    beforeKey: Option<string>, pageUrl: string
  )
    requires contextId == ContextIdAtContentBank(caps, s)
    requires beforeKey == Anchor(admin.children)
    modifies admin
    ensures admin.additions == old(admin.additions) + Planned(caps, s, beforeKey, pageUrl)
    ensures admin.children == AddedBefore(old(admin.children), beforeKey, Planned(caps, s, beforeKey, pageUrl))
  {
    // The node's children and calls before the first `if`, for the proof.
    ghost var c0, a0 := admin.children, admin.additions;
    AddFirstFive(admin, caps, s, contextId, beforeKey, pageUrl, c0, a0);
    AddLastFive(admin, caps, s, contextId, beforeKey, pageUrl, c0, a0);
    NodeOrderAsWritten();
    GatedIsWhens(NodeOrder, caps, s, beforeKey, pageUrl);
  }

  /** The `if`s for `training`, the content bank, the participants, enrolment and the course activities. */
  method AddFirstFive(
    admin: CourseAdminNode, caps: set<Capability>, s: Session, contextId: Option<int>,
    beforeKey: Option<string>, pageUrl: string, ghost c0: seq<Child>, ghost a0: seq<Addition>
  )
    requires contextId == ContextIdAtContentBank(caps, s)
    requires beforeKey == Anchor(c0)
    requires admin.children == c0 && admin.additions == a0
    modifies admin
    ensures admin.children == AddedBefore(c0, beforeKey, Whens(FirstFive, caps, s, beforeKey, pageUrl))
    ensures admin.additions == a0 + Whens(FirstFive, caps, s, beforeKey, pageUrl)
  {
    GateArms(caps, s.status);
    // The nodes whose `if` has run so far, for the proof.
    ghost var done: seq<NodeKey> := [];
    assert AddedBefore(c0, beforeKey, Whens(done, caps, s, beforeKey, pageUrl)) == c0 by {
      var p := Place(c0, beforeKey);
      assert NewChildren([]) == [];
      assert c0[..p] + [] + c0[p..] == c0;
    }
    assert a0 + Whens(done, caps, s, beforeKey, pageUrl) == a0;
    AddWhen(admin, Training, CapUpdate in caps, caps, s, contextId, beforeKey, pageUrl, c0, a0, done);
    done := done + [Training];
    AddWhen(admin, ContentBank, CapContentBank in caps, caps, s, contextId, beforeKey, pageUrl, c0, a0, done);
    done := done + [ContentBank];
    AddWhen(admin, EnrolledUsers, CapViewParticipants in caps, caps, s, contextId, beforeKey, pageUrl, c0, a0, done);
    done := done + [EnrolledUsers];
    if s.status != Archived && s.status != Completed && s.status != Cancelled {
      AddWhen(admin, EnrollUsers, CapImportUsers in caps, caps, s, contextId, beforeKey, pageUrl, c0, a0, done);
    } else {
      SkippedWhen(done, EnrollUsers, caps, s, beforeKey, pageUrl);
    }
    done := done + [EnrollUsers];
    AddWhen(admin, CourseActivities, CapOutlineReport in caps, caps, s, contextId, beforeKey, pageUrl, c0, a0, done);
    done := done + [CourseActivities];
  }

  /** The `if`s for the two completion reports, the groups, the notes and the duplication link. */
  method AddLastFive(
    admin: CourseAdminNode, caps: set<Capability>, s: Session, contextId: Option<int>,
    beforeKey: Option<string>, pageUrl: string, ghost c0: seq<Child>, ghost a0: seq<Addition>
  )
    requires contextId == ContextIdAtContentBank(caps, s)
    requires beforeKey == Anchor(c0)
    requires admin.children == AddedBefore(c0, beforeKey, Whens(FirstFive, caps, s, beforeKey, pageUrl))
    requires admin.additions == a0 + Whens(FirstFive, caps, s, beforeKey, pageUrl)
    modifies admin
    ensures admin.children == AddedBefore(c0, beforeKey, Whens(FirstFive
      + [TrainingCompletionReport] + [ActivitiesCompletionReport] + [Group] + [Notes] + [SessionToTraining], caps, s, beforeKey, pageUrl))
    ensures admin.additions == a0 + Whens(FirstFive
      + [TrainingCompletionReport] + [ActivitiesCompletionReport] + [Group] + [Notes] + [SessionToTraining], caps, s, beforeKey, pageUrl)
  {
    GateArms(caps, s.status);
    ghost var done: seq<NodeKey> := FirstFive;
    AddWhen(admin, TrainingCompletionReport, CapCompletionReport in caps, caps, s, contextId, beforeKey, pageUrl, c0, a0, done);
    done := done + [TrainingCompletionReport];
    AddWhen(admin, ActivitiesCompletionReport, CapProgressReport in caps, caps, s, contextId, beforeKey, pageUrl, c0, a0, done);
    done := done + [ActivitiesCompletionReport];
    AddWhen(admin, Group, CapManageGroups in caps, caps, s, contextId, beforeKey, pageUrl, c0, a0, done);
    done := done + [Group];
    AddWhen(admin, Notes, CapGraderReport in caps && CapViewAllGrades in caps, caps, s, contextId, beforeKey, pageUrl, c0, a0, done);
    done := done + [Notes];
    AddWhen(admin, SessionToTraining, CapDuplicateSession in caps, caps, s, contextId, beforeKey, pageUrl, c0, a0, done);
    done := done + [SessionToTraining];
  }

  /** The conditions of the ten `if`s, as the source writes them, are the gates' conditions. */
  lemma GateArms(caps: set<Capability>, status: SessionStatus)
    ensures Gate(Training, caps, status) == (CapUpdate in caps)
    ensures Gate(ContentBank, caps, status) == (CapContentBank in caps)
    ensures Gate(EnrolledUsers, caps, status) == (CapViewParticipants in caps)
    ensures EnrolmentOpen(status) ==> Gate(EnrollUsers, caps, status) == (CapImportUsers in caps)
    ensures !EnrolmentOpen(status) ==> !Gate(EnrollUsers, caps, status)
    ensures Gate(CourseActivities, caps, status) == (CapOutlineReport in caps)
    ensures Gate(TrainingCompletionReport, caps, status) == (CapCompletionReport in caps)
    ensures Gate(ActivitiesCompletionReport, caps, status) == (CapProgressReport in caps)
    ensures Gate(Group, caps, status) == (CapManageGroups in caps)
    ensures Gate(Notes, caps, status) == (CapGraderReport in caps && CapViewAllGrades in caps)
    ensures Gate(SessionToTraining, caps, status) == (CapDuplicateSession in caps)
  {
  }

  /** The hide loop: `get($key)->hide()` for every listed key that `get` finds. */
  method HideListed(admin: CourseAdminNode, restrict: seq<string>)
    modifies admin
    ensures admin.children == HideAll(old(admin.children), restrict)
    ensures admin.additions == old(admin.additions)
  {
    for i := 0 to |restrict|
      invariant admin.children == HideAll(old(admin.children), restrict[..i])
      invariant admin.additions == old(admin.additions)
    {
      var link := admin.Get(restrict[i]);
      if link.Some? {
        admin.Hide(link.value);
      }
      assert restrict[..i + 1][..i] == restrict[..i];
    }
    assert restrict[..|restrict|] == restrict;
  }

  /**
   * One `if` of the contributor for the node `k`: when `granted`, its
   * condition as the source writes it, the node is created and passed to
   * `add_node($node, $beforekey)`; otherwise nothing happens. The ghost
   * parameters carry the proof: the node started with children `c0` and
   * calls `a0`, and the `if`s for the nodes of `done` have run since.
   */
  method AddWhen(
    admin: CourseAdminNode, k: NodeKey, granted: bool, caps: set<Capability>, s: Session,
    contextId: Option<int>, beforeKey: Option<string>, pageUrl: string,
    ghost c0: seq<Child>, ghost a0: seq<Addition>, ghost done: seq<NodeKey>
  )
    requires granted == Gate(k, caps, s.status)
    requires contextId == ContextIdAtContentBank(caps, s)
    requires beforeKey == Anchor(c0)
    requires admin.children == AddedBefore(c0, beforeKey, Whens(done, caps, s, beforeKey, pageUrl))
    requires admin.additions == a0 + Whens(done, caps, s, beforeKey, pageUrl)
    modifies admin
    ensures admin.children == AddedBefore(c0, beforeKey, Whens(done + [k], caps, s, beforeKey, pageUrl))
    ensures admin.additions == a0 + Whens(done + [k], caps, s, beforeKey, pageUrl)
  {
    ghost var plan := Whens(done, caps, s, beforeKey, pageUrl);
    ghost var call := NodeFor(k, caps, s, beforeKey, pageUrl);
    assert call == Addition(CreateNode(k, s, contextId, pageUrl), beforeKey);
    WhensAvoidAnchor(done, caps, s, beforeKey, pageUrl);
    WhensSnoc(done, k, caps, s, beforeKey, pageUrl);
    if granted {
      admin.AddNode(CreateNode(k, s, contextId, pageUrl), beforeKey);
      AddedBeforeStep(c0, beforeKey, plan, call);
      assert Whens(done + [k], caps, s, beforeKey, pageUrl) == plan + [call];
    } else {
      assert Whens(done + [k], caps, s, beforeKey, pageUrl) == plan + [] == plan;
    }
    Tracked(a0, plan, granted, call, old(admin.additions), admin.additions);
  }

  /** The calls after one `if`: this `if`'s call is logged when it is made, and nothing otherwise. */
  lemma Tracked(a0: seq<Addition>, plan: seq<Addition>, granted: bool, call: Addition, additions: seq<Addition>, additions': seq<Addition>)
    requires additions == a0 + plan
    requires granted ==> additions' == additions + [call]
    requires !granted ==> additions' == additions
    ensures additions' == a0 + (plan + Opt(granted, call))
  {
    if !granted {
      assert plan + [] == plan;
    }
  }

  /**
   * The contributor removes and reorders none of the node's children: their
   * keys stay in order, and the gated nodes' keys, in the order of the
   * source's `if`s, stand where the anchor puts them.
   */
  lemma ContributeKeys(children: seq<Child>, caps: set<Capability>, s: Session, pageUrl: string)
    ensures Keys(Contribute(children, caps, s, pageUrl)) ==
      Keys(children[..AnchorPlace(children)]) + KeyNames(GatedNodes(NodeOrder, caps, s.status))
      + Keys(children[AnchorPlace(children)..])
    ensures |Contribute(children, caps, s, pageUrl)| == |children| + |GatedNodes(NodeOrder, caps, s.status)|
  {
    var plan := Planned(caps, s, Anchor(children), pageUrl);
    var p := AnchorPlace(children);
    var a, b, c := children[..p], NewChildren(plan), children[p..];
    assert Extended(children, caps, s, pageUrl) == a + b + c;
    HideAllEffect(a + b + c, HideList(pageUrl));
    KeysAppend(a + b, c);
    KeysAppend(a, b);
    KeysOfNewChildren(plan);
    PlannedKeys(caps, s, Anchor(children), pageUrl);
  }

  /**
   * With every capability and a session open for enrolment, all ten new keys
   * stand at the anchor, in the source's order, amid the original keys.
   */
  lemma EveryCapabilityKeyList(children: seq<Child>, caps: set<Capability>, s: Session, pageUrl: string)
    requires AllCapabilities <= caps && EnrolmentOpen(s.status)
    ensures Keys(Contribute(children, caps, s, pageUrl)) ==
      Keys(children[..AnchorPlace(children)]) + KeyNames(NodeOrder) + Keys(children[AnchorPlace(children)..])
  {
    ContributeKeys(children, caps, s, pageUrl);
    GatedNodesExtremes(NodeOrder, caps, s.status);
  }

  /**
   * Where the `j`-th original child ends up: where it was when it stands
   * before the anchor, and past the new links otherwise.
   */
  function OriginalPosition(children: seq<Child>, caps: set<Capability>, s: Session, pageUrl: string, j: nat): nat
  {
    if j < AnchorPlace(children) then j else j + |Planned(caps, s, Anchor(children), pageUrl)|
  }

  /**
   * An original child keeps its key. It ends hidden exactly when it was
   * hidden before, or it is the first child with a listed key and no new
   * link with that key was inserted in front of it.
   */
  lemma OriginalChildFlag(children: seq<Child>, caps: set<Capability>, s: Session, pageUrl: string, j: nat)
    requires j < |children|
    ensures OriginalPosition(children, caps, s, pageUrl, j) < |Contribute(children, caps, s, pageUrl)|
    ensures Contribute(children, caps, s, pageUrl)[OriginalPosition(children, caps, s, pageUrl, j)].key == children[j].key
    ensures Contribute(children, caps, s, pageUrl)[OriginalPosition(children, caps, s, pageUrl, j)].hidden <==>
      children[j].hidden ||
      (HiddenBy(children, HideList(pageUrl), j) &&
       !(AnchorPlace(children) <= j && children[j].key in AdditionKeys(Planned(caps, s, Anchor(children), pageUrl))))
  {
    var anchor, keys := Anchor(children), HideList(pageUrl);
    var plan := Planned(caps, s, anchor, pageUrl);
    var r := Contribute(children, caps, s, pageUrl);
    assert r == HideAll(AddedBefore(children, anchor, plan), keys);
    if j < AnchorPlace(children) {
      assert OriginalPosition(children, caps, s, pageUrl, j) == j;
      AddedBeforeFront(children, anchor, plan, keys, j);
      assert r[j].hidden <==> children[j].hidden || HiddenBy(children, keys, j);
    } else {
      assert OriginalPosition(children, caps, s, pageUrl, j) == j + |plan|;
      AddedBeforeBack(children, anchor, plan, Extended(children, caps, s, pageUrl), keys, j);
      HideAllAt(Extended(children, caps, s, pageUrl), keys, j + |plan|);
      assert r[j + |plan|].hidden <==>
        children[j].hidden || (HiddenBy(children, keys, j) && children[j].key !in AdditionKeys(plan));
    }
  }

  /**
   * A link the contributor inserted ends hidden exactly when it is the
   * `notes` link, the page is not the course-admin page, and no original
   * `notes` child stands before the anchor: the hide list then names
   * `notes` and `get` meets the new link first. Every other new link stays
   * visible.
   */
  lemma AddedChildFlag(children: seq<Child>, caps: set<Capability>, s: Session, pageUrl: string, j: nat)
    requires AnchorPlace(children) <= j < AnchorPlace(children) + |Planned(caps, s, Anchor(children), pageUrl)|
    ensures j < |Contribute(children, caps, s, pageUrl)|
    ensures Contribute(children, caps, s, pageUrl)[j].key ==
      AdditionKeys(Planned(caps, s, Anchor(children), pageUrl))[j - AnchorPlace(children)]
    ensures Contribute(children, caps, s, pageUrl)[j].hidden <==>
      Contribute(children, caps, s, pageUrl)[j].key == "notes" &&
      NotBefore(children, AnchorPlace(children), "notes") && !Contains(pageUrl, AdminPagePath)
  {
    var plan := Planned(caps, s, Anchor(children), pageUrl);
    var n := j - AnchorPlace(children);
    PlannedKeysDistinct(caps, s, Anchor(children), pageUrl);
    forall i | 0 <= i < n ensures plan[i].node.key != plan[n].node.key {
      assert plan[i].node.key == AdditionKeys(plan)[i] && plan[n].node.key == AdditionKeys(plan)[n];
    }
    AddedBeforeAdded(children, Anchor(children), plan, HideList(pageUrl), n, j);
    PlannedKeyListed(caps, s, Anchor(children), pageUrl, n);
  }

  /** On the course-admin page every link the contributor adds stays visible. */
  lemma AdminPageAddedLinksVisible(children: seq<Child>, caps: set<Capability>, s: Session, pageUrl: string)
    requires Contains(pageUrl, AdminPagePath)
    ensures forall j :: AnchorPlace(children) <= j < AnchorPlace(children) + |Planned(caps, s, Anchor(children), pageUrl)| ==>
      !Contribute(children, caps, s, pageUrl)[j].hidden
  {
    forall j | AnchorPlace(children) <= j < AnchorPlace(children) + |Planned(caps, s, Anchor(children), pageUrl)|
      ensures !Contribute(children, caps, s, pageUrl)[j].hidden
    {
      AddedChildFlag(children, caps, s, pageUrl, j);
    }
  }

  /** The first original `gradebooksetup` child, when there is one, always ends hidden. */
  lemma GradebookSetupHidden(children: seq<Child>, caps: set<Capability>, s: Session, pageUrl: string)
    requires "gradebooksetup" in Keys(children)
    ensures FirstIndex(children, "gradebooksetup").Some?
    ensures var j := FirstIndex(children, "gradebooksetup").value;
      Contribute(children, caps, s, pageUrl)[OriginalPosition(children, caps, s, pageUrl, j)].hidden
  {
    var j := FirstIndex(children, "gradebooksetup").value;
    OriginalChildFlag(children, caps, s, pageUrl, j);
    PlannedKeys(caps, s, Anchor(children), pageUrl);
    KeyNamesNotHostKeys(GatedNodes(NodeOrder, caps, s.status));
  }

  /** An original `session_to_training` child is left exactly as it was, on every page. */
  lemma SessionToTrainingChildUntouched(children: seq<Child>, caps: set<Capability>, s: Session, pageUrl: string, j: nat)
    requires j < |children| && children[j].key == "session_to_training"
    ensures OriginalPosition(children, caps, s, pageUrl, j) < |Contribute(children, caps, s, pageUrl)|
    ensures Contribute(children, caps, s, pageUrl)[OriginalPosition(children, caps, s, pageUrl, j)] == children[j]
  {
    OriginalChildFlag(children, caps, s, pageUrl, j);
    SessionToTrainingNeverListed(pageUrl);
  }
}
