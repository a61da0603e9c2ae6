/**
 * The part of the host's settings-navigation tree the plugin touches: the
 * course-admin node, its direct children (key and hidden flag, in order),
 * and the three node operations the plugin calls on it: `get`, `add_node`
 * and `hide`.
 *
 * `add_node` is recorded in two places: the new child is inserted among the
 * children just before the first child keyed `beforekey` (or last, when
 * there is none), and the call itself, with its anchor, is appended to
 * `additions`. The order of `children` is the order in which the host lists
 * the node's children.
 */
module SettingsTree {
  import opened Wrappers

  /** `navigation_node::NODETYPE_LEAF` or `navigation_node::TYPE_USER`. */
  datatype NodeType = Leaf | UserType

  /**
   * Where a new node links to: the session sheet (built by the session
   * entity from the current page URL), or a host page with one query parameter.
   * The parameter's value is `None` where the PHP variable was never assigned.
   */
  datatype Target =
    | SessionSheet(returnUrl: string)
    | Route(path: string, param: string, value: Option<int>)

  datatype Child = Child(key: string, hidden: bool)

  /**
   * What `navigation_node::create` returns, as far as the plugin decides it:
   * the key, the link and the node type. The label and icon are host strings.
   */
  datatype NewNode = NewNode(key: string, target: Target, nodeType: NodeType)

  /** One `add_node` call: the node created and the `beforekey` it was given. */
  datatype Addition = Addition(node: NewNode, beforeKey: Option<string>)

  function Keys(children: seq<Child>): (r: seq<string>)
    ensures |r| == |children|
    ensures forall i :: 0 <= i < |children| ==> r[i] == children[i].key
  {
    seq(|children|, i requires 0 <= i < |children| => children[i].key)
  }

  function AdditionKeys(additions: seq<Addition>): (r: seq<string>)
    ensures |r| == |additions|
    ensures forall i :: 0 <= i < |additions| ==> r[i] == additions[i].node.key
  {
    seq(|additions|, i requires 0 <= i < |additions| => additions[i].node.key)
  }

  /** The visible children a series of `add_node` calls creates. */
  function NewChildren(additions: seq<Addition>): (r: seq<Child>)
    ensures |r| == |additions|
    ensures forall i :: 0 <= i < |r| ==> r[i] == Child(additions[i].node.key, false)
  {
    seq(|additions|, i requires 0 <= i < |additions| => Child(additions[i].node.key, false))
  }

  /**
   * `get($key)` on the node: the position of the first child with that key,
   * or `None` when no child has it.
   */
  function FirstIndex(children: seq<Child>, key: string): (r: Option<nat>)
    ensures r.None? <==> key !in Keys(children)
    ensures r.Some? ==> r.value < |children| && children[r.value].key == key &&
                        forall j :: 0 <= j < r.value ==> children[j].key != key
  {
    if children == [] then None
    else if children[0].key == key then Some(0)
    else match FirstIndex(children[1..], key)
      case None => None
      case Some(i) => Some(i + 1)
  }

  /** `get($key)->hide()` when `get` finds a child; nothing otherwise. */
  function HideKey(children: seq<Child>, key: string): (r: seq<Child>)
    ensures |r| == |children|
  {
    match FirstIndex(children, key)
    case None => children
    case Some(i) => children[i := children[i].(hidden := true)]
  }

  /** The hide loop over a whole list of keys, in list order. */
  function HideAll(children: seq<Child>, keys: seq<string>): (r: seq<Child>)
    ensures |r| == |children|
    decreases |keys|
  {
    if keys == [] then children
    else HideKey(HideAll(children, keys[..|keys| - 1]), keys[|keys| - 1])
  }

  /** A child is hidden by the loop exactly when it is the first child with a listed key. */
  predicate HiddenBy(children: seq<Child>, keys: seq<string>, j: nat)
    requires j < |children|
  {
    children[j].key in keys && NotBefore(children, j, children[j].key)
  }

  /** Hiding one key changes flags only: the key list is untouched. */
  lemma HideKeyKeepsKeys(children: seq<Child>, key: string)
    ensures Keys(HideKey(children, key)) == Keys(children)
  {
  }

  /**
   * The hide loop removes and reorders nothing: the children keep their keys
   * in order, and a child ends hidden exactly when it was hidden before or is
   * the first child carrying one of the listed keys.
   */
  lemma {:induction false} HideAllEffect(children: seq<Child>, keys: seq<string>)
    ensures Keys(HideAll(children, keys)) == Keys(children)
    ensures forall j :: 0 <= j < |children| ==>
      (HideAll(children, keys)[j].hidden <==> children[j].hidden || HiddenBy(children, keys, j))
    decreases |keys|
  {
    if keys != [] {
      var init := keys[..|keys| - 1];
      var last := keys[|keys| - 1];
      HideAllEffect(children, init);
      var mid := HideAll(children, init);
      HideKeyKeepsKeys(mid, last);
      assert keys == init + [last];
      forall j | 0 <= j < |children|
        ensures FirstIndex(mid, children[j].key) == FirstIndex(children, children[j].key)
        ensures FirstIndex(children, children[j].key) == Some(j) <==> NotBefore(children, j, children[j].key)
      {
        SameKeysSameIndex(mid, children, children[j].key);
        FirstIndexAt(children, children[j].key, j);
      }
    }
  }

  /** Two child lists with the same keys find every key at the same place. */
  lemma {:induction false} SameKeysSameIndex(a: seq<Child>, b: seq<Child>, key: string)
    requires Keys(a) == Keys(b)
    ensures FirstIndex(a, key) == FirstIndex(b, key)
    decreases |a|
  {
    if a != [] && b != [] {
      assert a[0].key == Keys(a)[0] == Keys(b)[0] == b[0].key;
      if a[0].key != key {
        assert Keys(a[1..]) == Keys(a)[1..] == Keys(b)[1..] == Keys(b[1..]);
        SameKeysSameIndex(a[1..], b[1..], key);
      }
    }
  }

  /** Every listed key that some child carries ends up hidden on its first child. */
  lemma ListedKeysHidden(children: seq<Child>, keys: seq<string>, key: string)
    requires key in keys && key in Keys(children)
    ensures FirstIndex(children, key).Some?
    ensures HideAll(children, keys)[FirstIndex(children, key).value].hidden
  {
    HideAllEffect(children, keys);
  }

  /** A child whose key is not listed keeps its flag. */
  lemma UnlistedKeysUntouched(children: seq<Child>, keys: seq<string>, j: nat)
    requires j < |children| && children[j].key !in keys
    ensures HideAll(children, keys)[j] == children[j]
  {
    HideAllEffect(children, keys);
    assert Keys(HideAll(children, keys))[j] == children[j].key;
  }

  /** The keys of two child lists one after the other. */
  lemma KeysAppend(a: seq<Child>, b: seq<Child>)
    ensures Keys(a + b) == Keys(a) + Keys(b)
  {
    var l, r := Keys(a + b), Keys(a) + Keys(b);
    forall i | 0 <= i < |l| ensures l[i] == r[i] {
      if i < |a| {
        assert (a + b)[i] == a[i];
      } else {
        assert (a + b)[i] == b[i - |a|];
      }
    }
  }

  /** The children a series of calls creates carry the calls' keys. */
  lemma KeysOfNewChildren(additions: seq<Addition>)
    ensures Keys(NewChildren(additions)) == AdditionKeys(additions)
  {
  }

  /** No child of `b` before the `n`-th carries `key`. */
  predicate NotBefore(b: seq<Child>, n: nat, key: string)
    requires n <= |b|
  {
    forall i :: 0 <= i < n ==> b[i].key != key
  }

  /** The children before the `p`-th lack `key` exactly when their keys do. */
  lemma KeysPrefix(children: seq<Child>, p: nat, key: string)
    requires p <= |children|
    ensures key !in Keys(children[..p]) <==> NotBefore(children, p, key)
  {
    var a := children[..p];
    if key in Keys(a) {
      var i :| 0 <= i < p && Keys(a)[i] == key;
      assert children[i] == a[i];
    } else {
      forall i | 0 <= i < p ensures children[i].key != key {
        assert Keys(a)[i] == a[i].key;
      }
    }
  }

  /** `get` finds the first child with the key, and only that one. */
  lemma FirstIndexAt(children: seq<Child>, key: string, i: nat)
    requires i < |children| && children[i].key == key
    ensures FirstIndex(children, key) == Some(i) <==> NotBefore(children, i, key)
  {
    assert Keys(children)[i] == key;
    var k := FirstIndex(children, key).value;
    if NotBefore(children, i, key) {
      assert !(k < i) && !(i < k);
    }
  }

  /**
   * In `a + b`, `get` finds the `n`-th child of `b`, at place `i`, exactly
   * when neither `a` nor a child of `b` before it carries its key.
   */
  lemma FirstIndexPast(a: seq<Child>, b: seq<Child>, n: nat, i: nat, key: string)
    requires n < |b| && b[n].key == key && i == |a| + n
    ensures FirstIndex(a + b, key) == Some(i) <==>
      key !in Keys(a) && NotBefore(b, n, key)
  {
    assert (a + b)[i] == b[n];
    FirstIndexAt(a + b, key, i);
    PrefixLacksKey(a, b, n, i, key);
  }

  /** Below the `n`-th child of `b`, at place `i`, `a + b` lacks `key` exactly when `a` and that part of `b` do. */
  lemma PrefixLacksKey(a: seq<Child>, b: seq<Child>, n: nat, i: nat, key: string)
    requires n <= |b| && i == |a| + n
    ensures NotBefore(a + b, i, key) <==>
      key !in Keys(a) && NotBefore(b, n, key)
  {
    var e := a + b;
    if key in Keys(a) {
      var i :| 0 <= i < |a| && Keys(a)[i] == key;
      assert e[i] == a[i];
    } else if exists i :: 0 <= i < n && b[i].key == key {
      var i :| 0 <= i < n && b[i].key == key;
      assert e[|a| + i] == b[i];
    } else {
      forall i | 0 <= i < |a| + n ensures e[i].key != key {
        if i < |a| {
          assert e[i] == a[i] && Keys(a)[i] == a[i].key;
        } else {
          assert e[i] == b[i - |a|];
        }
      }
    }
  }

  /** Whether a child of `a` is the first with a listed key does not depend on what follows `a`. */
  lemma HiddenByPrefix(a: seq<Child>, b: seq<Child>, keys: seq<string>, j: nat)
    requires j < |a|
    ensures HiddenBy(a + b, keys, j) <==> HiddenBy(a, keys, j)
  {
    var e := a + b;
    assert e[j] == a[j];
    assert forall i :: 0 <= i < j ==> e[i] == a[i];
  }

  /**
   * The `n`-th child of `b`, at place `i` of `a + b`, is the first with a listed key
   * exactly when its key is listed and neither `a` nor an earlier child of
   * `b` carries it.
   */
  lemma HiddenByPast(a: seq<Child>, b: seq<Child>, keys: seq<string>, n: nat, i: nat)
    requires n < |b| && i == |a| + n
    ensures (a + b)[i] == b[n]
    ensures HiddenBy(a + b, keys, i) <==>
      b[n].key in keys && b[n].key !in Keys(a) && NotBefore(b, n, b[n].key)
  {
    assert (a + b)[i] == b[n];
    PrefixLacksKey(a, b, n, i, b[n].key);
  }

  /** The hide loop's effect on the child at place `i`. */
  lemma HideAllAt(children: seq<Child>, keys: seq<string>, i: nat)
    requires i < |children|
    ensures |HideAll(children, keys)| == |children|
    ensures HideAll(children, keys)[i] == Child(children[i].key, children[i].hidden || HiddenBy(children, keys, i))
  {
    HideAllEffect(children, keys);
    assert Keys(HideAll(children, keys))[i] == Keys(children)[i];
  }

  /**
   * Children `b` inserted between `a` and `c`, seen from a child of `a`: it
   * is first with its key exactly when it is so in `a + c`.
   */
  lemma HiddenByInsertedFront(a: seq<Child>, b: seq<Child>, c: seq<Child>, keys: seq<string>, j: nat)
    requires j < |a|
    ensures (a + b + c)[j] == (a + c)[j]
    ensures HiddenBy(a + b + c, keys, j) <==> HiddenBy(a + c, keys, j)
  {
    assert a + b + c == a + (b + c);
    assert (a + c)[j] == a[j] && (a + (b + c))[j] == a[j];
    HiddenByPrefix(a, b + c, keys, j);
    HiddenByPrefix(a, c, keys, j);
  }

  /**
   * Children `b` inserted between `a` and `c`, seen from the `n`-th child of
   * `c`: it moves from place `j` of `a + c` to place `q` past `b`, and it is
   * first with its key exactly when it is so in `a + c` and no child of `b`
   * carries the key.
   */
  lemma HiddenByInsertedBack(a: seq<Child>, b: seq<Child>, c: seq<Child>, keys: seq<string>, n: nat, j: nat, q: nat)
    requires n < |c| && j == |a| + n && q == j + |b|
    ensures (a + b + c)[q] == c[n] && (a + c)[j] == c[n]
    ensures HiddenBy(a + b + c, keys, q) <==> HiddenBy(a + c, keys, j) && c[n].key !in Keys(b)
  {
    HiddenByPast(a + b, c, keys, n, q);
    HiddenByPast(a, c, keys, n, j);
    KeysAppend(a, b);
  }

  /**
   * Children `b` inserted between `a` and `c`, seen from the `n`-th child of
   * `b`, at place `i`, when no earlier child of `b` has its key: it is first with its key
   * exactly when `a` lacks the key.
   */
  lemma HiddenByInserted(a: seq<Child>, b: seq<Child>, c: seq<Child>, keys: seq<string>, n: nat, i: nat)
    requires n < |b| && NotBefore(b, n, b[n].key) && i == |a| + n
    ensures (a + b + c)[i] == b[n]
    ensures HiddenBy(a + b + c, keys, i) <==> b[n].key in keys && b[n].key !in Keys(a)
  {
    var bc := b + c;
    assert a + b + c == a + bc;
    assert bc[n] == b[n];
    assert NotBefore(bc, n, b[n].key) by {
      assert forall k :: 0 <= k < n ==> bc[k] == b[k];
    }
    HiddenByPast(a, bc, keys, n, i);
  }

  /**
   * Where `add_node` puts a new child: just before the first child keyed
   * `beforeKey` when there is one, and at the end otherwise.
   */
  function Place(children: seq<Child>, beforeKey: Option<string>): (r: nat)
    ensures r <= |children|
    ensures beforeKey.Some? && beforeKey.value in Keys(children) ==>
      r < |children| && children[r].key == beforeKey.value && NotBefore(children, r, beforeKey.value)
    ensures beforeKey.None? || beforeKey.value !in Keys(children) ==> r == |children|
  {
    if beforeKey.None? then |children|
    else match FirstIndex(children, beforeKey.value)
      case None => |children|
      case Some(i) =>
        i
  }

  /**
   * The children after a series of `add_node` calls, all given the anchor
   * `beforeKey` and none creating it: the new children in call order, where
   * `Place` puts the first one.
   */
  function AddedBefore(children: seq<Child>, beforeKey: Option<string>, additions: seq<Addition>): seq<Child>
  {
    var p := Place(children, beforeKey);
    children[..p] + NewChildren(additions) + children[p..]
  }

  /** The children after the calls are the original ones split at the anchor's place, with the new ones between. */
  lemma AddedBeforeSplit(
    children: seq<Child>, beforeKey: Option<string>, additions: seq<Addition>, p: nat, b: seq<Child>, e: seq<Child>
  )
    requires p == Place(children, beforeKey) && b == NewChildren(additions) && e == AddedBefore(children, beforeKey, additions)
    ensures p <= |children| && e == children[..p] + b + children[p..]
    ensures |b| == |additions| && Keys(b) == AdditionKeys(additions)
  {
    KeysOfNewChildren(additions);
  }

  /**
   * An original child before the anchor, after the calls and then the hide
   * loop: it keeps its place and its key, and ends hidden exactly when it was
   * hidden or it is the first child with a listed key.
   */
  lemma AddedBeforeFront(children: seq<Child>, beforeKey: Option<string>, additions: seq<Addition>, keys: seq<string>, j: nat)
    requires j < Place(children, beforeKey)
    ensures j < |HideAll(AddedBefore(children, beforeKey, additions), keys)|
    ensures HideAll(AddedBefore(children, beforeKey, additions), keys)[j].key == children[j].key
    ensures HideAll(AddedBefore(children, beforeKey, additions), keys)[j].hidden <==>
      children[j].hidden || HiddenBy(children, keys, j)
  {
    var p := Place(children, beforeKey);
    var a, b, c := children[..p], NewChildren(additions), children[p..];
    var e := AddedBefore(children, beforeKey, additions);
    assert a + c == children;
    assert e == a + b + c;
    HideAllAt(e, keys, j);
    HiddenByInsertedFront(a, b, c, keys, j);
  }

  /**
   * An original child at or past the anchor, after the calls: it moves past
   * the new children, and `get` still finds it by its key exactly when it
   * did before and no new child carries that key.
   */
  lemma AddedBeforeBack(
    children: seq<Child>, beforeKey: Option<string>, additions: seq<Addition>, e: seq<Child>, keys: seq<string>, j: nat
  )
    requires e == AddedBefore(children, beforeKey, additions) && Place(children, beforeKey) <= j < |children|
    ensures j + |additions| < |e| && e[j + |additions|] == children[j]
    ensures HiddenBy(e, keys, j + |additions|) <==>
      HiddenBy(children, keys, j) && children[j].key !in AdditionKeys(additions)
  {
    var p, b := Place(children, beforeKey), NewChildren(additions);
    var a, c := children[..p], children[p..];
    AddedBeforeSplit(children, beforeKey, additions, p, b, e);
    assert a + c == children && e == a + b + c;
    HiddenByInsertedBack(a, b, c, keys, j - p, j, j + |additions|);
  }

  /**
   * The `n`-th new child after the calls and then the hide loop, when no
   * earlier call used its key: it ends hidden exactly when its key is listed
   * and no original child before the anchor has that key.
   */
  lemma AddedBeforeAdded(children: seq<Child>, beforeKey: Option<string>, additions: seq<Addition>, keys: seq<string>, n: nat, i: nat)
    requires n < |additions| && i == Place(children, beforeKey) + n
    requires forall k :: 0 <= k < n ==> additions[k].node.key != additions[n].node.key
    ensures i < |HideAll(AddedBefore(children, beforeKey, additions), keys)|
    ensures HideAll(AddedBefore(children, beforeKey, additions), keys)[i].key == additions[n].node.key
    ensures HideAll(AddedBefore(children, beforeKey, additions), keys)[i].hidden <==>
      additions[n].node.key in keys && NotBefore(children, Place(children, beforeKey), additions[n].node.key)
  {
    var p := Place(children, beforeKey);
    assert AddedBefore(children, beforeKey, additions) == children[..p] + NewChildren(additions) + children[p..];
    InsertedAdded(children, NewChildren(additions), keys, p, n, i);
  }

  /**
   * Children `b` inserted at place `p` of `children`, then the hide loop:
   * the `n`-th of them, when no earlier one has its key, stands at place `i`
   * and ends hidden exactly when its key is listed and no child before `p`
   * has it.
   */
  lemma InsertedAdded(children: seq<Child>, b: seq<Child>, keys: seq<string>, p: nat, n: nat, i: nat)
    requires p <= |children| && n < |b| && i == p + n && NotBefore(b, n, b[n].key)
    ensures i < |HideAll(children[..p] + b + children[p..], keys)|
    ensures HideAll(children[..p] + b + children[p..], keys)[i] ==
      Child(b[n].key, b[n].hidden || (b[n].key in keys && NotBefore(children, p, b[n].key)))
  {
    var a, c := children[..p], children[p..];
    HideAllAt(a + b + c, keys, i);
    HiddenByInserted(a, b, c, keys, n, i);
    KeysPrefix(children, p, b[n].key);
  }

  /** One more such call puts its child after the earlier new ones, still before the anchor. */
  lemma AddedBeforeStep(children: seq<Child>, beforeKey: Option<string>, additions: seq<Addition>, call: Addition)
    requires beforeKey.Some? ==> beforeKey.value !in AdditionKeys(additions)
    ensures var e := AddedBefore(children, beforeKey, additions);
      var q := Place(e, beforeKey);
      e[..q] + [Child(call.node.key, false)] + e[q..] == AddedBefore(children, beforeKey, additions + [call])
  {
    var p := Place(children, beforeKey);
    var a, b, c := children[..p], NewChildren(additions), children[p..];
    var x := [Child(call.node.key, false)];
    var e := AddedBefore(children, beforeKey, additions);
    KeysOfNewChildren(additions);
    PlaceAfterInserted(children, beforeKey, b);
    NewChildrenAppend(additions, [call]);
    NewChildrenSingle(call);
    Splice(a, b, c, x, e, Place(e, beforeKey));
  }

  /** Splicing `x` into `a + b + c` just after `b` extends `b` by `x`. */
  lemma Splice(a: seq<Child>, b: seq<Child>, c: seq<Child>, x: seq<Child>, e: seq<Child>, q: nat)
    requires e == a + b + c && q == |a| + |b|
    ensures q <= |e| && e[..q] + x + e[q..] == a + (b + x) + c
  {
    assert e[..q] == a + b && e[q..] == c;
  }

  /** After children without the anchor's key are inserted at `Place`, the anchor has moved past them. */
  lemma PlaceAfterInserted(children: seq<Child>, beforeKey: Option<string>, b: seq<Child>)
    requires beforeKey.Some? ==> beforeKey.value !in Keys(b)
    ensures var p := Place(children, beforeKey);
      Place(children[..p] + b + children[p..], beforeKey) == p + |b|
  {
    var p := Place(children, beforeKey);
    var a, c := children[..p], children[p..];
    assert a + c == children;
    if beforeKey.Some? {
      var key := beforeKey.value;
      KeysAppend(a, b);
      if key in Keys(children) {
        assert c[0].key == key;
        KeysPrefix(children, p, key);
        FirstIndexPast(a + b, c, 0, p + |b|, key);
      } else {
        KeysAppend(a, c);
        KeysAppend(a + b, c);
      }
    }
  }

  /** The child of a single call. */
  lemma NewChildrenSingle(call: Addition)
    ensures NewChildren([call]) == [Child(call.node.key, false)]
  {
  }

  /** The children of two series of calls, one after the other. */
  lemma NewChildrenAppend(a: seq<Addition>, b: seq<Addition>)
    ensures NewChildren(a + b) == NewChildren(a) + NewChildren(b)
  {
    var l, r := NewChildren(a + b), NewChildren(a) + NewChildren(b);
    forall i | 0 <= i < |l| ensures l[i] == r[i] {
      if i < |a| {
        assert (a + b)[i] == a[i];
      } else {
        assert (a + b)[i] == b[i - |a|];
      }
    }
  }

  /** The course-admin node (`courseadmin`, of type `TYPE_COURSE`) as the plugin sees it. */
  class CourseAdminNode {
    var children: seq<Child>
    var additions: seq<Addition>

    constructor (children: seq<Child>)
      ensures this.children == children && additions == []
    {
      this.children := children;
      additions := [];
    }

    /** `get_children_key_list()`. */
    function KeyList(): seq<string>
      reads this
    {
      Keys(children)
    }

    /** `get($key)`: where the child is, if there is one. */
    function Get(key: string): Option<nat>
      reads this
    {
      FirstIndex(children, key)
    }

    /**
     * `add_node($node, $beforekey)` for a freshly created, visible node: the
     * child goes just before the first child keyed `beforeKey`, or last.
     */
    method AddNode(node: NewNode, beforeKey: Option<string>)
      modifies this
      ensures children == old(children)[..Place(old(children), beforeKey)] + [Child(node.key, false)]
                        + old(children)[Place(old(children), beforeKey)..]
      ensures additions == old(additions) + [Addition(node, beforeKey)]
    {
      var i := Place(children, beforeKey);
      children := children[..i] + [Child(node.key, false)] + children[i..];
      additions := additions + [Addition(node, beforeKey)];
    }

    /** `hide()` on the child at position `i`. */
    method Hide(i: nat)
      requires i < |children|
      modifies this
      ensures children == old(children)[i := old(children)[i].(hidden := true)]
      ensures additions == old(additions)
    {
      children := children[i := children[i].(hidden := true)];
    }
  }
}
