/**
 * Property diffing against one host node (src/myReact/utils.ts).
 * A host node is seen through the two things updateDom changes on it:
 * its attribute slots and its set of (event type, handler) listeners.
 */
module DomProps {
  import opened Elements

  type PropMap = map<string, Value>

  /** A key names an event listener iff it starts with "on". */
  predicate IsEvent(key: string)
  {
    |key| >= 2 && key[0] == 'o' && key[1] == 'n'
  }

  /** Lower-casing of one character (ASCII letters only). */
  function LowerChar(c: char): char
  {
    if 'A' <= c <= 'Z' then (c as int + 32) as char else c
  }

  /**
   * `toLowerCase` on ASCII: each upper-case letter moves 32 code points up
   * to its lower-case form, every other character is kept, and no upper-case
   * letter is left.
   */
  function ToLower(s: string): (r: string)
    ensures |r| == |s|
    ensures forall i | 0 <= i < |s| ::
              if 'A' <= s[i] <= 'Z' then r[i] as int == s[i] as int + 32 else r[i] == s[i]
    ensures forall i | 0 <= i < |r| :: !('A' <= r[i] <= 'Z')
  {
    seq(|s|, i requires 0 <= i < |s| => LowerChar(s[i]))
  }

  /** Lower-casing twice is lower-casing once. */
  lemma ToLowerIdempotent(s: string)
    ensures ToLower(ToLower(s)) == ToLower(s)
  {
  }

  /** The event name of a listener key: lower-cased, first two characters dropped ("onClick" gives "click"). */
  function GetEventType(name: string): (t: string)
    ensures |t| == if |name| >= 2 then |name| - 2 else 0
    ensures forall i | 0 <= i < |t| :: t[i] == LowerChar(name[i + 2])
  {
    var lower := ToLower(name);
    if |lower| >= 2 then lower[2..] else ""
  }

  /** Attribute keys: neither `children` nor an event key. */
  predicate IsProperty(key: string)
  {
    key != "children" && !IsEvent(key)
  }

  /** `props[key]`: an absent key reads as undefined. */
  function Get(m: PropMap, key: string): Value
  {
    if key in m then m[key] else Undefined
  }

  predicate IsNew(prev: PropMap, next: PropMap, key: string)
  {
    Get(prev, key) != Get(next, key)
  }

  predicate IsGone(next: PropMap, key: string)
  {
    key !in next
  }

  datatype Listener = Listener(eventType: string, handler: Value)

  /** What updateDom can change on a host node. */
  datatype NodeState = NodeState(attrs: map<string, Value>, listeners: set<Listener>)

  /** Pass 1: previous event keys whose handler changed or disappeared. */
  function DetachKeys(prev: PropMap, next: PropMap): set<string>
  {
    set k | k in prev && IsEvent(k) && (IsNew(prev, next, k) || IsGone(next, k))
  }

  /** Pass 2: previous attribute keys absent from the next props. */
  function ClearKeys(prev: PropMap, next: PropMap): set<string>
  {
    set k | k in prev && IsProperty(k) && IsGone(next, k)
  }

  /** Pass 3: next attribute keys whose value differs from the previous one. */
  function AssignKeys(prev: PropMap, next: PropMap): set<string>
  {
    set k | k in next && IsProperty(k) && IsNew(prev, next, k)
  }

  /** Pass 4: next event keys whose handler differs from the previous one. */
  function AttachKeys(prev: PropMap, next: PropMap): set<string>
  {
    set k | k in next && IsEvent(k) && IsNew(prev, next, k)
  }

  function DetachedAmong(prev: PropMap, next: PropMap, ks: set<string>): set<Listener>
  {
    set k | k in ks && k in DetachKeys(prev, next) :: Listener(GetEventType(k), prev[k])
  }

  function AttachedAmong(prev: PropMap, next: PropMap, ks: set<string>): set<Listener>
  {
    set k | k in ks && k in AttachKeys(prev, next) :: Listener(GetEventType(k), next[k])
  }

  function ClearedAmong(prev: PropMap, next: PropMap, ks: set<string>): map<string, Value>
  {
    map k | k in ks && k in ClearKeys(prev, next) :: Str("")
  }

  function AssignedAmong(prev: PropMap, next: PropMap, ks: set<string>): map<string, Value>
  {
    map k | k in ks && k in AssignKeys(prev, next) :: next[k]
  }

  /**
   * The node after updateDom(node, prev, next): removed listeners come off before
   * the new ones go on; cleared attributes become '' and changed ones take the next value.
   */
  function Updated(node: NodeState, prev: PropMap, next: PropMap): NodeState
  {
    NodeState(
      node.attrs + ClearedAmong(prev, next, prev.Keys) + AssignedAmong(prev, next, next.Keys),
      (node.listeners - DetachedAmong(prev, next, prev.Keys)) + AttachedAmong(prev, next, next.Keys))
  }

  lemma DetachedStep(prev: PropMap, next: PropMap, done: set<string>, name: string)
    requires name in prev
    ensures DetachedAmong(prev, next, done + {name}) ==
      DetachedAmong(prev, next, done) + (if name in DetachKeys(prev, next) then {Listener(GetEventType(name), prev[name])} else {})
  {
  }

  lemma ClearedStep(prev: PropMap, next: PropMap, done: set<string>, name: string)
    requires name in prev
    ensures ClearedAmong(prev, next, done + {name}) ==
      if name in ClearKeys(prev, next) then ClearedAmong(prev, next, done)[name := Str("")] else ClearedAmong(prev, next, done)
  {
  }

  lemma AssignedStep(prev: PropMap, next: PropMap, done: set<string>, name: string)
    requires name in next
    ensures AssignedAmong(prev, next, done + {name}) ==
      if name in AssignKeys(prev, next) then AssignedAmong(prev, next, done)[name := next[name]] else AssignedAmong(prev, next, done)
  {
  }

  lemma AttachedStep(prev: PropMap, next: PropMap, done: set<string>, name: string)
    requires name in next
    ensures AttachedAmong(prev, next, done + {name}) ==
      AttachedAmong(prev, next, done) + (if name in AttachKeys(prev, next) then {Listener(GetEventType(name), next[name])} else {})
  {
  }

  /** Pass 1 of updateDom: remove old or changed event listeners. */
  method DetachListeners(listeners: set<Listener>, prev: PropMap, next: PropMap) returns (r: set<Listener>)
    ensures r == listeners - DetachedAmong(prev, next, prev.Keys)
  {
    r := listeners;
    var todo, done := prev.Keys, {};
    while todo != {}
      invariant todo + done == prev.Keys && todo !! done
      invariant r == listeners - DetachedAmong(prev, next, done)
      decreases todo
    {
      var name :| name in todo;
      if IsEvent(name) && (IsNew(prev, next, name) || IsGone(next, name)) {
        r := r - {Listener(GetEventType(name), prev[name])};
      }
      DetachedStep(prev, next, done, name);
      todo, done := todo - {name}, done + {name};
    }
  }

  /** Pass 2 of updateDom: reset attributes that are gone to ''. */
  method ClearAttributes(attrs: map<string, Value>, prev: PropMap, next: PropMap) returns (r: map<string, Value>)
    ensures r == attrs + ClearedAmong(prev, next, prev.Keys)
  {
    r := attrs;
    var todo, done := prev.Keys, {};
    while todo != {}
      invariant todo + done == prev.Keys && todo !! done
      invariant r == attrs + ClearedAmong(prev, next, done)
      decreases todo
    {
      var name :| name in todo;
      if IsProperty(name) && IsGone(next, name) {
        r := r[name := Str("")];
      }
      ClearedStep(prev, next, done, name);
      todo, done := todo - {name}, done + {name};
    }
  }

  /** Pass 3 of updateDom: set new or changed attributes. */
  method AssignAttributes(attrs: map<string, Value>, prev: PropMap, next: PropMap) returns (r: map<string, Value>)
    ensures r == attrs + AssignedAmong(prev, next, next.Keys)
  {
    r := attrs;
    var todo, done := next.Keys, {};
    while todo != {}
      invariant todo + done == next.Keys && todo !! done
      invariant r == attrs + AssignedAmong(prev, next, done)
      decreases todo
    {
      var name :| name in todo;
      if IsProperty(name) && IsNew(prev, next, name) {
        r := r[name := next[name]];
      }
      AssignedStep(prev, next, done, name);
      todo, done := todo - {name}, done + {name};
    }
  }

  /** Pass 4 of updateDom: add new or changed event listeners. */
  method AttachListeners(listeners: set<Listener>, prev: PropMap, next: PropMap) returns (r: set<Listener>)
    ensures r == listeners + AttachedAmong(prev, next, next.Keys)
  {
    r := listeners;
    var todo, done := next.Keys, {};
    while todo != {}
      invariant todo + done == next.Keys && todo !! done
      invariant r == listeners + AttachedAmong(prev, next, done)
      decreases todo
    {
      var name :| name in todo;
      if IsEvent(name) && IsNew(prev, next, name) {
        r := r + {Listener(GetEventType(name), next[name])};
      }
      AttachedStep(prev, next, done, name);
      todo, done := todo - {name}, done + {name};
    }
  }

  /** updateDom(dom, prevProps, nextProps): the four passes in source order. */
  method UpdateDom(node: NodeState, prev: PropMap, next: PropMap) returns (r: NodeState)
    ensures r == Updated(node, prev, next)
  {
    var listeners := DetachListeners(node.listeners, prev, next);
    var attrs := ClearAttributes(node.attrs, prev, next);
    attrs := AssignAttributes(attrs, prev, next);
    listeners := AttachListeners(listeners, prev, next);
    r := NodeState(attrs, listeners);
  }

  /** The four key sets partition by kind: attributes never include `children` or event keys, and no key is both cleared and assigned. */
  lemma KeyKindsPartition(prev: PropMap, next: PropMap, k: string)
    ensures k in ClearKeys(prev, next) + AssignKeys(prev, next) ==> k != "children" && !IsEvent(k)
    ensures k in DetachKeys(prev, next) + AttachKeys(prev, next) ==> IsEvent(k) && k != "children"
    ensures !(k in ClearKeys(prev, next) && k in AssignKeys(prev, next))
  {
  }

  /** A key present on both sides with the same value is in none of the four passes, and its attribute slot is left as it was. */
  lemma {:induction false} UnchangedKeyUntouched(node: NodeState, prev: PropMap, next: PropMap, k: string)
    requires k in prev && k in next && prev[k] == next[k]
    ensures k !in DetachKeys(prev, next) && k !in ClearKeys(prev, next)
    ensures k !in AssignKeys(prev, next) && k !in AttachKeys(prev, next)
    ensures k in Updated(node, prev, next).attrs <==> k in node.attrs
    ensures k in node.attrs ==> Updated(node, prev, next).attrs[k] == node.attrs[k]
  {
    assert k !in ClearedAmong(prev, next, prev.Keys);
    assert k !in AssignedAmong(prev, next, next.Keys);
  }

  /** updateDom(dom, p, p) changes nothing. */
  lemma {:induction false} UpdateDomSamePropsIsNoOp(node: NodeState, p: PropMap)
    ensures Updated(node, p, p) == node
  {
    assert ClearedAmong(p, p, p.Keys) == map[] by {
      forall k | k in p ensures k !in ClearKeys(p, p) { }
    }
    assert AssignedAmong(p, p, p.Keys) == map[];
    assert DetachedAmong(p, p, p.Keys) == {} by {
      forall k | k in p ensures k !in DetachKeys(p, p) { }
    }
    assert AttachedAmong(p, p, p.Keys) == {};
    assert node.attrs + map[] + map[] == node.attrs;
  }

  /**
   * Going from { className: 'a', onClick: f } to { className: 'b' }: the click
   * listener f comes off, className becomes 'b', and nothing else changes.
   */
  lemma {:induction false} ClassNameAndClickExample(node: NodeState, f: nat)
    ensures var prev := map["className" := Str("a"), "onClick" := Func(f)];
            var next := map["className" := Str("b")];
            Updated(node, prev, next) ==
              NodeState(node.attrs["className" := Str("b")], node.listeners - {Listener("click", Func(f))})
  {
    var prev := map["className" := Str("a"), "onClick" := Func(f)];
    var next := map["className" := Str("b")];
    assert IsEvent("onClick") && !IsEvent("className");
    assert GetEventType("onClick") == "click";
    assert DetachKeys(prev, next) == {"onClick"};
    assert ClearKeys(prev, next) == {};
    assert AssignKeys(prev, next) == {"className"};
    assert AttachKeys(prev, next) == {};
    assert DetachedAmong(prev, next, prev.Keys) == {Listener("click", Func(f))};
    assert ClearedAmong(prev, next, prev.Keys) == map[];
    assert AssignedAmong(prev, next, next.Keys) == map["className" := Str("b")];
    assert AttachedAmong(prev, next, next.Keys) == {};
  }

}
