/** The choice of the records a binding holds: `spell` and `bind_settle` of
    bindwrite.c. */
module BindSettle {
  import opened Options
  import opened BindModel

  /** The position a type is spelled for: arrays and functions have a form in
      some of them only. */
  datatype Place = AsField | AsParam | AsResult

  /** The records of a header and the names the module writes them by. */
  datatype Header = Header(records: map<Id, Rec>, antiName: string -> string, number: int -> string)

  function NameOf(h: Header, id: Id): (name: string) {
    if id in h.records then h.antiName(h.records[id].name) else ""
  }

  /** The Anti form of a type where `bound` are the records with one, or
      none. */
  function Spell(h: Header, bound: set<Id>, t: Type, place: Place): (text: Option<string>)
    decreases t, 2
  {
    match t
    case Scalar(name) => Some(name)
    case Enum(name) => Some(h.antiName(name))
    case Bool => Some("bool")
    case Record(id) => if id in bound then Some(NameOf(h, id)) else None
    case Pointer(to) => Some(SpellPointer(h, bound, to))
    case Array(length, to) =>
      if place == AsParam then Some(SpellPointer(h, bound, to))
      else if place != AsField || length < 1 then None
      else
        var element := Spell(h, bound, to, AsField);
        if element.None? then None else Some("[" + h.number(length) + "]" + element.value)
    case Function(_, _, _) => if place != AsParam then None else Some(SpellFunction(h, bound, t))
    case VaList => if place != AsParam then None else Some("?*byte")
    case _ => None
  }

  function SpellPointer(h: Header, bound: set<Id>, to: Type): (text: string)
    decreases to, 3
  {
    if to.Void? || to.Opaque? || to.Unsupported? || to.VaList? || to.Array? || to == Scalar("c_char") then "?*byte"
    else if to.Function? then SpellFunction(h, bound, to)
    else
      match Spell(h, bound, to, AsField)
      case None => "?*byte"
      case Some(inner) => "?*" + inner
  }

  function SpellFunction(h: Header, bound: set<Id>, f: Type): (text: string)
    requires f.Function?
    decreases f, 1
  {
    var params := if f.variadic then None else SpellParams(h, bound, f.params, 0);
    if params.None? then "?*byte"
    else if f.to.Void? then "?fn(" + params.value + ")"
    else
      match Spell(h, bound, f.to, AsResult)
      case None => "?*byte"
      case Some(result) => "?fn(" + params.value + ") -> " + result
  }

  function SpellParams(h: Header, bound: set<Id>, params: seq<Type>, i: nat): (text: Option<string>)
    requires i <= |params|
    decreases params, |params| - i
  {
    if i == |params| then Some("")
    else
      var one, rest := Spell(h, bound, params[i], AsParam), SpellParams(h, bound, params, i + 1);
      if one.None? || rest.None? then None
      else Some((if i > 0 then ", " else "") + one.value + rest.value)
  }

  predicate FieldSpells(h: Header, bound: set<Id>, f: Field) {
    Spell(h, bound, f.typ, AsField).Some?
  }

  predicate FieldsSpell(h: Header, bound: set<Id>, r: Rec) {
    forall i :: 0 <= i < |r.fields| ==> FieldSpells(h, bound, r.fields[i])
  }

  /** A record the module may hold at all. */
  predicate Holdable(h: Header, id: Id) {
    id in h.records && h.records[id].complete && |h.records[id].fields| > 0
  }

  /** More records with a form never take the form of a type away, wherever it
      stands. */
  lemma {:induction false} SpellGrows(h: Header, bound: set<Id>, more: set<Id>, t: Type, place: Place)
    requires bound <= more && Spell(h, bound, t, place).Some?
    ensures Spell(h, more, t, place).Some?
    decreases t
  {
    if t.Array? && place == AsField { SpellGrows(h, bound, more, t.to, AsField); }
  }

  lemma FieldsSpellGrow(h: Header, bound: set<Id>, more: set<Id>, r: Rec)
    requires bound <= more && FieldsSpell(h, bound, r)
    ensures FieldsSpell(h, more, r)
  {
    forall i | 0 <= i < |r.fields| ensures FieldSpells(h, more, r.fields[i]) {
      assert FieldSpells(h, bound, r.fields[i]);
      SpellGrows(h, bound, more, r.fields[i].typ, AsField);
    }
  }

  // ---- What a record may hold ----

  /** `part` is the type, or what an array in it is made of. */
  ghost predicate PartOf(part: Type, t: Type) {
    part == t || (t.Array? && PartOf(part, t.to))
  }

  /** What can be held by value: scalars, enums, bool, pointers of any kind,
      records with a form, and arrays of those of at least one element. */
  ghost predicate Plain(bound: set<Id>, t: Type) {
    || t.Scalar? || t.Enum? || t.Bool? || t.Pointer?
    || (t.Record? && t.id in bound) || (t.Array? && t.length >= 1)
  }

  ghost predicate Kept(bound: set<Id>, t: Type) {
    forall part :: PartOf(part, t) ==> Plain(bound, part)
  }

  /** A field has a form exactly where all it holds by value can be held. */
  lemma {:induction false} SpellsWhereKept(h: Header, bound: set<Id>, t: Type)
    ensures Spell(h, bound, t, AsField).Some? <==> Kept(bound, t)
    decreases t
  {
    assert PartOf(t, t);
    if t.Array? {
      SpellsWhereKept(h, bound, t.to);
      assert forall part :: PartOf(part, t) <==> part == t || PartOf(part, t.to);
    }
  }

  /** A record is complete, with fields, and each of them can be held. */
  ghost predicate FieldsKept(bound: set<Id>, r: Rec) {
    r.complete && r.fields != [] && forall i :: 0 <= i < |r.fields| ==> Kept(bound, r.fields[i].typ)
  }

  lemma FieldsSpellWhereKept(h: Header, bound: set<Id>, r: Rec)
    ensures FieldsSpell(h, bound, r) <==> forall i :: 0 <= i < |r.fields| ==> Kept(bound, r.fields[i].typ)
  {
    forall i | 0 <= i < |r.fields| ensures FieldSpells(h, bound, r.fields[i]) <==> Kept(bound, r.fields[i].typ) {
      SpellsWhereKept(h, bound, r.fields[i].typ);
    }
  }

  /** In the greatest set every record holds only what can be held beside the
      set, and each record that does is in it. */
  lemma GreatestKeeps(h: Header, items: set<Id>, outside: set<Id>, s: set<Id>, id: Id)
    requires Greatest(h, items, outside, s) && id in items && id in h.records
    ensures id in s <==> FieldsKept(outside + s, h.records[id])
  {
    FieldsSpellWhereKept(h, outside + s, h.records[id]);
    if Holdable(h, id) && id !in s { LeftOutHasReason(h, items, outside, s, id); }
  }

  // ---- The greatest set ----

  /** Records of `items` that may all be held together, beside those bound
      outside it. */
  ghost predicate Stable(h: Header, items: set<Id>, outside: set<Id>, s: set<Id>) {
    s <= items && forall id :: id in s ==> Holdable(h, id) && FieldsSpell(h, outside + s, h.records[id])
  }

  ghost predicate Greatest(h: Header, items: set<Id>, outside: set<Id>, s: set<Id>) {
    Stable(h, items, outside, s) && forall other :: Stable(h, items, outside, other) ==> other <= s
  }

  /** There is one greatest set, whatever the order of the records. */
  lemma GreatestIsUnique(h: Header, items: set<Id>, outside: set<Id>, s: set<Id>, s': set<Id>)
    requires Greatest(h, items, outside, s) && Greatest(h, items, outside, s')
    ensures s == s'
  {
  }

  /** Any two stable sets can be held together. */
  lemma StableJoin(h: Header, items: set<Id>, outside: set<Id>, s: set<Id>, s': set<Id>)
    requires Stable(h, items, outside, s) && Stable(h, items, outside, s')
    ensures Stable(h, items, outside, s + s')
  {
    forall id | id in s + s' ensures Holdable(h, id) && FieldsSpell(h, outside + (s + s'), h.records[id]) {
      FieldsSpellGrow(h, outside + (if id in s then s else s'), outside + (s + s'), h.records[id]);
    }
  }

  /** A record that cannot be held beside all that may still be held is in no
      stable set. */
  lemma LeftOut(h: Header, items: set<Id>, outside: set<Id>, s: set<Id>, id: Id)
    requires forall other :: Stable(h, items, outside, other) ==> other <= s
    requires id in h.records && !FieldsSpell(h, outside + s, h.records[id])
    ensures forall other :: Stable(h, items, outside, other) ==> other <= s - {id}
  {
    forall other | Stable(h, items, outside, other) ensures other <= s - {id} {
      if id in other {
        assert FieldsSpell(h, outside + other, h.records[id]);
        FieldsSpellGrow(h, outside + other, outside + s, h.records[id]);
      }
    }
  }

  /** Where a record is left out of the greatest set, one of its fields has no
      form. */
  lemma LeftOutHasReason(h: Header, items: set<Id>, outside: set<Id>, s: set<Id>, id: Id)
    requires Greatest(h, items, outside, s) && id in items && id !in s && Holdable(h, id)
    ensures !FieldsSpell(h, outside + s, h.records[id])
  {
    if FieldsSpell(h, outside + s, h.records[id]) {
      var more := s + {id};
      forall k | k in more ensures Holdable(h, k) && FieldsSpell(h, outside + more, h.records[k]) {
        FieldsSpellGrow(h, outside + s, outside + more, h.records[k]);
      }
      assert Stable(h, items, outside, more);
      assert false;
    }
  }

  /** What the generator says of a record it leaves out. */
  datatype Warning = NoField(id: Id) | NoForm(id: Id, field: nat)

  predicate FirstWithout(h: Header, bound: set<Id>, r: Rec, at: nat) {
    && at < |r.fields| && !FieldSpells(h, bound, r.fields[at])
    && forall i :: 0 <= i < at ==> FieldSpells(h, bound, r.fields[i])
  }

  class Module {
    const h: Header
    const items: seq<Id>
    /** The records whose flag is up. */
    var bound: set<Id>

    constructor (h: Header, items: seq<Id>)
      requires forall id :: id in items ==> id in h.records
      ensures this.h == h && this.items == items && bound == {}
    {
      this.h, this.items, this.bound := h, items, {};
    }

    ghost predicate Valid()
      reads this
    {
      forall id :: id in items ==> id in h.records
    }

    /** The first field that has no form, if any. */
    method RecordFieldsSpell(r: Rec) returns (why: Option<nat>)
      ensures why.None? <==> FieldsSpell(h, bound, r)
      ensures why.Some? ==> FirstWithout(h, bound, r, why.value)
      ensures why.None? <==> forall i :: 0 <= i < |r.fields| ==> Kept(bound, r.fields[i].typ)
    {
      FieldsSpellWhereKept(h, bound, r);
      var i := 0;
      while i < |r.fields|
        invariant 0 <= i <= |r.fields| && forall k :: 0 <= k < i ==> FieldSpells(h, bound, r.fields[k])
      {
        if Spell(h, bound, r.fields[i].typ, AsField).None? {
          assert !FieldSpells(h, bound, r.fields[i]);
          return Some(i);
        }
        i := i + 1;
      }
      why := None;
    }

    /** One pass: lower the flag of each record with a field that names one
        without. */
    method LeaveOut(ghost outside: set<Id>) returns (changed: bool)
      requires Valid() && bound >= outside
      requires forall other :: Stable(h, Items(), outside, other) ==> other <= bound - outside
      requires bound - outside <= Items() && outside !! Items()
      requires forall id :: id in bound - outside ==> Holdable(h, id)
      modifies this`bound
      ensures bound >= outside && bound <= old(bound) && (changed <==> bound < old(bound))
      ensures forall other :: Stable(h, Items(), outside, other) ==> other <= bound - outside
      ensures !changed ==> Stable(h, Items(), outside, bound - outside)
    {
      changed := false;
      var i := 0;
      while i < |items|
        invariant 0 <= i <= |items|
        invariant bound >= outside && bound <= old(bound) && (changed <==> bound < old(bound))
        invariant forall other :: Stable(h, Items(), outside, other) ==> other <= bound - outside
        invariant !changed ==>
                    forall k :: 0 <= k < i && items[k] in bound ==> FieldsSpell(h, bound, h.records[items[k]])
      {
        var id := items[i];
        if id in bound {
          var why := RecordFieldsSpell(h.records[id]);
          if why.Some? {
            assert bound == outside + (bound - outside);
            LeftOut(h, Items(), outside, bound - outside, id);
            assert (bound - {id}) - outside == (bound - outside) - {id};
            bound := bound - {id};
            changed := true;
          }
        }
        i := i + 1;
      }
      if !changed {
        assert outside + (bound - outside) == bound;
        forall id | id in bound - outside
          ensures id in h.records && FieldsSpell(h, outside + (bound - outside), h.records[id])
        {
          assert id in Items();
          var k :| 0 <= k < |items| && items[k] == id;
        }
      }
    }

    ghost function Items(): (s: set<Id>)
      reads this
    {
      set id | id in items
    }

    /** The greatest set of complete records with fields whose every field has
        a form beside it; and a warning for each complete record left out. */
    method Settle() returns (warnings: seq<Warning>)
      requires Valid()
      modifies this`bound
      ensures var outside := old(bound) - Items();
              && outside <= bound
              && Greatest(h, Items(), outside, bound - outside)
      ensures forall id :: id in items ==> (id in bound <==> FieldsKept(bound, h.records[id]))
      ensures forall id :: id in items && id !in bound && h.records[id].complete ==>
                if h.records[id].fields == [] then NoField(id) in warnings
                else exists at :: FirstWithout(h, bound, h.records[id], at) && NoForm(id, at) in warnings
    {
      ghost var outside := bound - Items();
      RaiseAll(outside);
      var changed := true;
      while changed
        invariant bound >= outside && bound - outside <= Items()
        invariant forall id :: id in bound - outside ==> Holdable(h, id)
        invariant forall other :: Stable(h, Items(), outside, other) ==> other <= bound - outside
        invariant !changed ==> Stable(h, Items(), outside, bound - outside)
        decreases bound, changed
      {
        changed := LeaveOut(outside);
      }
      assert outside + (bound - outside) == bound;
      forall id | id in items ensures id in bound <==> FieldsKept(bound, h.records[id]) {
        assert id in Items();
        GreatestKeeps(h, Items(), outside, bound - outside, id);
      }
      warnings := Warn(outside);
    }

    method RaiseAll(ghost outside: set<Id>)
      requires Valid() && outside == bound - Items()
      modifies this`bound
      ensures bound == outside + set id | id in Items() && Holdable(h, id)
    {
      var i := 0;
      while i < |items|
        invariant 0 <= i <= |items|
        invariant forall id :: id in bound && id !in items ==> id in outside
        invariant outside <= bound
        invariant forall k :: 0 <= k < i ==> (items[k] in bound <==> Holdable(h, items[k]))
      {
        var r := h.records[items[i]];
        bound := if r.complete && |r.fields| > 0 then bound + {items[i]} else bound - {items[i]};
        i := i + 1;
      }
      forall id | id in Items() ensures id in bound <==> Holdable(h, id) {
        var k :| 0 <= k < |items| && items[k] == id;
      }
    }

    method Warn(ghost outside: set<Id>) returns (warnings: seq<Warning>)
      requires Valid() && outside <= bound && outside !! Items() && Greatest(h, Items(), outside, bound - outside)
      ensures forall id :: id in items && id !in bound && h.records[id].complete ==>
                if h.records[id].fields == [] then NoField(id) in warnings
                else exists at :: FirstWithout(h, bound, h.records[id], at) && NoForm(id, at) in warnings
    {
      warnings := [];
      var i := 0;
      while i < |items|
        invariant 0 <= i <= |items|
        invariant forall k :: 0 <= k < i && items[k] !in bound && h.records[items[k]].complete ==>
                    var r := h.records[items[k]];
                    if r.fields == [] then NoField(items[k]) in warnings
                    else exists at :: FirstWithout(h, bound, r, at) && NoForm(items[k], at) in warnings
      {
        var id := items[i];
        var r := h.records[id];
        if r.complete {
          if |r.fields| == 0 {
            warnings := warnings + [NoField(id)];
          } else if id !in bound {
            var why := RecordFieldsSpell(r);
            if why.Some? {
              warnings := warnings + [NoForm(id, why.value)];
            } else {
              assert outside + (bound - outside) == bound;
              LeftOutHasReason(h, Items(), outside, bound - outside, id);
              assert false;
            }
          }
        }
        i := i + 1;
      }
    }
  }
}
