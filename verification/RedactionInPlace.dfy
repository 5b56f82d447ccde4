/** redact_secrets_in_obj: the recursion that overwrites dictionary and list slots of a parsed tree. */
module RedactionInPlace {
  import opened Prelude
  import opened JsonModel
  import opened Redaction

  /** A Python value: an immutable scalar, or a reference to a dict or list. */
  datatype Value = Scalar(j: Json) | Ref(c: Container)

  /** A dictionary entry, or a list item (no key). */
  datatype Slot = Slot(key: Option<string>, value: Value)

  /** A dict or list object of the tree json.loads builds. */
  class Container {
    const isDict: bool
    var slots: seq<Slot>
    ghost var model: Json            // the JSON value this object stands for
    ghost var Repr: set<Container>   // this object and everything below it

    ghost predicate Valid()
      reads this, Repr
      ensures Valid() ==> this in Repr
      decreases Repr
    {
      && this in Repr
      && (forall i :: 0 <= i < |slots| ==> SlotOk(slots[i]))
      && (forall i :: 0 <= i < |slots| && slots[i].value.Ref? ==>
                        && slots[i].value.c in Repr && slots[i].value.c.Repr <= Repr
                        && this !in slots[i].value.c.Repr && slots[i].value.c.Valid())
      && DisjointChildren()
      && Stands(model)
    }

    /** The parsed value is a tree: no object is reached twice. */
    ghost predicate DisjointChildren()
      reads this, set i | 0 <= i < |slots| && slots[i].value.Ref? :: slots[i].value.c
    {
      forall i, j :: 0 <= i < j < |slots| && slots[i].value.Ref? && slots[j].value.Ref? ==>
                       slots[i].value.c.Repr !! slots[j].value.c.Repr
    }

    /** Dictionary entries have keys, list items do not, scalars hold no container. */
    predicate SlotOk(s: Slot) {
      && s.key.Some? == isDict
      && (s.value.Scalar? ==> !s.value.j.JArray? && !s.value.j.JObject?)
    }

    /** This object, slot by slot, is the JSON value j. */
    ghost predicate Stands(j: Json)
      reads this, set i | 0 <= i < |slots| && slots[i].value.Ref? :: slots[i].value.c
    {
      && (if isDict then j.JObject? else j.JArray?)
      && Width(j) == |slots|
      && forall i: nat :: i < |slots| ==> ChildKey(j, i) == slots[i].key && Child(j, i) == ModelOf(slots[i].value)
    }
  }

  ghost function ModelOf(v: Value): (model: Json)
    reads if v.Ref? then {v.c} else {}
  {
    if v.Scalar? then v.j else v.c.model
  }

  /** A scalar can be secret only as a string, and a container never is. */
  predicate IsSecretValue(key: Option<string>, v: Value) {
    v.Scalar? && IsSecret(key, v.j)
  }

  lemma {:induction false} ContainerIsNotSecret(c: Container, key: Option<string>)
    requires c.Valid()
    ensures RedactSlot(key, c.model) == Redact(c.model)
  {
  }

  lemma {:induction false} ScalarIsKept(key: Option<string>, j: Json)
    requires !j.JArray? && !j.JObject?
    ensures RedactSlot(key, j) == if IsSecret(key, j) then JString(REDACTED_SECRET_VALUE) else j
  {
  }

  /** Two values with one frame differ exactly when a child differs. */
  lemma DiffersAtAChild(a: Json, b: Json)
    requires SameFrame(a, b) && (a.JArray? || a.JObject?)
    ensures a != b <==> exists i: nat :: i < Width(a) && Child(a, i) != Child(b, i)
  {
    if forall i: nat :: i < Width(a) ==> Child(a, i) == Child(b, i) {
      if a.JArray? {
        forall i | 0 <= i < |a.items|
          ensures a.items[i] == b.items[i]
        {
          assert Child(a, i) == Child(b, i);
        }
        assert a.items == b.items;
      } else {
        forall i | 0 <= i < |a.members|
          ensures a.members[i] == b.members[i]
        {
          assert Child(a, i) == Child(b, i) && ChildKey(a, i) == ChildKey(b, i);
        }
        assert a.members == b.members;
      }
    }
  }

  /** What a slot holds once redacted. */
  ghost function Wanted(model: Json, k: nat): (wanted: Json)
    requires k < Width(model)
  {
    RedactSlot(ChildKey(model, k), Child(model, k))
  }

  /** The tree is sound; slots before i are redacted and the others still as in the model. */
  ghost predicate Progress(c: Container, model: Json, i: nat)
    reads c, c.Repr
  {
    && c in c.Repr
    && (forall k :: 0 <= k < |c.slots| ==> c.SlotOk(c.slots[k]))
    && (forall k :: 0 <= k < |c.slots| && c.slots[k].value.Ref? ==>
                      && c.slots[k].value.c in c.Repr && c.slots[k].value.c.Repr <= c.Repr
                      && c !in c.slots[k].value.c.Repr && c.slots[k].value.c.Valid())
    && c.DisjointChildren()
    && (if c.isDict then model.JObject? else model.JArray?)
    && i <= |c.slots| == Width(model)
    && (forall k: nat :: k < |c.slots| ==> c.slots[k].key == ChildKey(model, k))
    && (forall k: nat ::
          k < |c.slots| ==> ModelOf(c.slots[k].value) == if k < i then Wanted(model, k) else Child(model, k))
  }

  lemma {:induction false} Open(c: Container)
    requires c.Valid()
    ensures Progress(c, c.model, 0) && |c.slots| == Width(c.model)
    ensures c.model.JArray? || c.model.JObject?
  {
  }

  /** All slots redacted: the object now stands for the redacted value. */
  ghost method Close(c: Container, model: Json)
    requires Progress(c, model, |c.slots|)
    modifies c`model
    ensures c.Valid() && c.model == Redact(model)
  {
    RedactFrame(model);
    hide Redact, RedactSlot, Container.Valid;
    c.model := Redact(model);
    Assemble(c);
  }

  lemma {:induction false} Assemble(c: Container)
    requires c in c.Repr
    requires forall k :: 0 <= k < |c.slots| ==> c.SlotOk(c.slots[k])
    requires forall k :: 0 <= k < |c.slots| && c.slots[k].value.Ref? ==>
                           && c.slots[k].value.c in c.Repr && c.slots[k].value.c.Repr <= c.Repr
                           && c !in c.slots[k].value.c.Repr && c.slots[k].value.c.Valid()
    requires c.DisjointChildren() && c.Stands(c.model)
    ensures c.Valid()
  {
  }

  /** obj[key] = marker, or obj[index] = marker. */
  method MaskSlot(c: Container, ghost model: Json, i: nat)
    requires Progress(c, model, i) && i < |c.slots| && IsSecretValue(c.slots[i].key, c.slots[i].value)
    modifies c`slots
    ensures Progress(c, model, i + 1) && |c.slots| == old(|c.slots|)
    ensures Wanted(model, i) != Child(model, i)
  {
    hide IsSecret, Redact, RedactSlot, Child, ChildKey, Container.Valid;
    var slot := c.slots[i];
    ScalarIsKept(slot.key, slot.value.j);
    MaskIsNotSecret(slot.key);
    c.slots := c.slots[i := Slot(slot.key, Scalar(JString(REDACTED_SECRET_VALUE)))];
  }

  /** Redacting the object in slot i leaves its siblings' objects alone. */
  method Descend(c: Container, ghost model: Json, i: nat) returns (changed: bool)
    requires Progress(c, model, i) && i < |c.slots| && c.slots[i].value.Ref?
    modifies c.Repr
    ensures c.Repr == old(c.Repr) && c.model == old(c.model) && |c.slots| == old(|c.slots|)
    ensures Progress(c, model, i + 1)
    ensures changed <==> Wanted(model, i) != Child(model, i)
    decreases c.Repr, 0
  {
    hide IsSecret, Redact, RedactSlot, Child, ChildKey, Container.SlotOk, Container.Valid;
    ContainerIsNotSecret(c.slots[i].value.c, c.slots[i].key);
    changed := RedactInPlace(c.slots[i].value.c);
  }

  lemma ScalarSlotDone(c: Container, model: Json, i: nat)
    requires Progress(c, model, i) && i < |c.slots|
    requires c.slots[i].value.Scalar? && !IsSecretValue(c.slots[i].key, c.slots[i].value)
    ensures Progress(c, model, i + 1) && Wanted(model, i) == Child(model, i)
  {
    hide IsSecret, Redact, RedactSlot, Container.Valid;
    ScalarIsKept(c.slots[i].key, c.slots[i].value.j);
  }

  /** The body of the loop: mask the slot, or descend into the object it holds. */
  method RedactOneSlot(c: Container, ghost model: Json, i: nat) returns (changed: bool)
    requires c in c.Repr && Progress(c, model, i) && i < |c.slots|
    modifies c.Repr
    ensures c.Repr == old(c.Repr) && c.model == old(c.model) && |c.slots| == old(|c.slots|)
    ensures Progress(c, model, i + 1)
    ensures changed <==> Wanted(model, i) != Child(model, i)
    decreases c.Repr, 1
  {
    assert i < Width(model);
    hide *;
    var slot := c.slots[i];
    if IsSecretValue(slot.key, slot.value) {
      MaskSlot(c, model, i);
      changed := true;
    } else if slot.value.Ref? {
      changed := Descend(c, model, i);
    } else {
      ScalarSlotDone(c, model, i);
      changed := false;
    }
  }

  /** Some slot before i is no longer what it was. */
  ghost predicate ChangedBefore(model: Json, i: nat)
    requires i <= Width(model)
  {
    exists k: nat :: k < i && Wanted(model, k) != Child(model, k)
  }

  lemma ChangedBeforeNext(model: Json, i: nat)
    requires i < Width(model)
    ensures ChangedBefore(model, i + 1) <==> ChangedBefore(model, i) || Wanted(model, i) != Child(model, i)
  {
  }

  method RedactInPlace(c: Container) returns (changed: bool)
    requires c.Valid()
    modifies c.Repr
    ensures c.Valid() && c.Repr == old(c.Repr)
    ensures c.model == Redact(old(c.model))
    ensures changed <==> c.model != old(c.model)
    decreases c.Repr, 2
  {
    ghost var model := c.model;
    Open(c);
    WantedDecides(model);
    hide *;
    changed := false;
    var i := 0;
    while i < |c.slots|
      invariant i <= |c.slots| == Width(model)
      invariant c in c.Repr && c.Repr == old(c.Repr) && c.model == model
      invariant Progress(c, model, i)
      invariant changed <==> ChangedBefore(model, i)
    {
      ChangedBeforeNext(model, i);
      var slotChanged := RedactOneSlot(c, model, i);
      if slotChanged {
        changed := true;
      }
      i := i + 1;
    }
    Close(c, model);
  }

  /** The tree changes exactly when some slot does. */
  lemma {:induction false} WantedDecides(model: Json)
    requires model.JArray? || model.JObject?
    ensures !ChangedBefore(model, 0)
    ensures Redact(model) != model <==> ChangedBefore(model, Width(model))
  {
    RedactFrame(model);
    DiffersAtAChild(model, Redact(model));
  }
}
