/** The value a probe gives a record to tell its layout by: `settable` and
    `settable_record` of bindwrite.c, a search with a path and a memo. */
module BindProbe {
  import opened Options
  import opened BindModel

  /** The levels of records a walk stands in. */
  const RECORD_DEPTH := 64

  datatype EnumValue = EnumValue(name: string, value: int)

  datatype EnumDef = EnumDef(name: string, values: seq<EnumValue>)

  /** What the search reads: the records, the enumerations and the names the
      module writes. */
  datatype Binding = Binding(records: map<Id, Rec>, enums: seq<EnumDef>, antiName: string -> string,
                             isUnsigned: string -> bool, lastModule: string)

  function EnumNamed(enums: seq<EnumDef>, name: string): (e: Option<EnumDef>)
    ensures e.Some? ==> e.value in enums && e.value.name == name
  {
    if enums == [] then None else if enums[0].name == name then Some(enums[0]) else EnumNamed(enums[1..], name)
  }

  function FirstNonZero(values: seq<EnumValue>): (v: Option<EnumValue>)
    ensures v.Some? ==> v.value in values && v.value.value != 0
    ensures v.None? ==> forall i :: 0 <= i < |values| ==> values[i].value == 0
  {
    if values == [] then None else if values[0].value != 0 then Some(values[0]) else FirstNonZero(values[1..])
  }

  /** A value of the type itself that is not zero, in C and in Anti. */
  function Leaf(b: Binding, t: Type, bits: int): (v: Option<(string, string)>) {
    match t
    case Scalar(name) =>
      if bits == 1 && !b.isUnsigned(name) then None
      else Some(("1", if name == "c_float" || name == "c_double" then "1.0" else "1"))
    case Bool => Some(("1", "true"))
    case Enum(name) =>
      var e := EnumNamed(b.enums, name);
      var v := if e.None? then None else FirstNonZero(e.value.values);
      if v.None? then None
      else Some((v.value.name, b.lastModule + "." + b.antiName(name) + "." + b.antiName(v.value.name)))
    case _ => None
  }

  /** The first enumeration of the name, and its first value that is not
      zero. */
  ghost predicate FirstEnum(b: Binding, name: string, k: nat, v: nat) {
    && k < |b.enums| && b.enums[k].name == name && (forall j :: 0 <= j < k ==> b.enums[j].name != name)
    && v < |b.enums[k].values| && b.enums[k].values[v].value != 0
    && forall j :: 0 <= j < v ==> b.enums[k].values[j].value == 0
  }

  lemma {:induction false} EnumIs(enums: seq<EnumDef>, name: string)
    ensures match EnumNamed(enums, name)
            case None => forall j :: 0 <= j < |enums| ==> enums[j].name != name
            case Some(e) => exists k: nat :: k < |enums| && enums[k] == e && e.name == name &&
                                             forall j :: 0 <= j < k ==> enums[j].name != name
    decreases |enums|
  {
    if enums != [] && enums[0].name != name {
      EnumIs(enums[1..], name);
      if EnumNamed(enums[1..], name).Some? {
        var k: nat :| k < |enums[1..]| && enums[1..][k] == EnumNamed(enums, name).value &&
                      forall j :: 0 <= j < k ==> enums[1..][j].name != name;
        forall j | 0 <= j < k + 1 ensures enums[j].name != name { if j > 0 { assert enums[1..][j - 1] == enums[j]; } }
        assert enums[k + 1] == enums[1..][k];
      } else {
        forall j | 0 <= j < |enums| ensures enums[j].name != name { if j > 0 { assert enums[1..][j - 1] == enums[j]; } }
      }
    }
  }

  lemma {:induction false} NonZeroIs(values: seq<EnumValue>)
    ensures FirstNonZero(values).Some? ==>
              exists v: nat :: v < |values| && values[v] == FirstNonZero(values).value && values[v].value != 0 &&
                               forall j :: 0 <= j < v ==> values[j].value == 0
    decreases |values|
  {
    if values != [] && values[0].value == 0 {
      NonZeroIs(values[1..]);
      if FirstNonZero(values).Some? {
        var v: nat :| v < |values[1..]| && values[1..][v] == FirstNonZero(values).value && values[1..][v].value != 0 &&
                      forall j :: 0 <= j < v ==> values[1..][j].value == 0;
        forall j | 0 <= j < v + 1 ensures values[j].value == 0 { if j > 0 { assert values[1..][j - 1] == values[j]; } }
        assert values[v + 1] == values[1..][v];
      }
    }
  }

  lemma EnumLeaf(b: Binding, name: string, bits: int)
    ensures Leaf(b, Enum(name), bits).Some? <==> exists k: nat, v: nat :: FirstEnum(b, name, k, v)
    ensures forall k: nat, v: nat :: FirstEnum(b, name, k, v) ==>
              var value := b.enums[k].values[v].name;
              Leaf(b, Enum(name), bits) ==
              Some((value, b.lastModule + "." + b.antiName(name) + "." + b.antiName(value)))
  {
    EnumIs(b.enums, name);
    var e := EnumNamed(b.enums, name);
    if e.Some? {
      NonZeroIs(e.value.values);
      var k: nat :| k < |b.enums| && b.enums[k] == e.value && e.value.name == name &&
                    forall j :: 0 <= j < k ==> b.enums[j].name != name;
      var values := e.value.values;
      if FirstNonZero(values).Some? {
        var v: nat :| v < |values| && values[v] == FirstNonZero(values).value && values[v].value != 0 &&
                      forall j :: 0 <= j < v ==> values[j].value == 0;
        assert FirstEnum(b, name, k, v);
        forall k': nat, v': nat | FirstEnum(b, name, k', v') ensures k' == k && v' == v {}
      }
    }
  }

  /** What can be set by itself: a number, but not a signed bitfield of one bit,
      which holds 0 and -1 alone; a truth value; and an enumeration with a value
      that is not zero, by the first of them. Nothing else has a value of its
      own. */
  lemma LeafIs(b: Binding, t: Type, bits: int)
    ensures t.Scalar? ==> (Leaf(b, t, bits).Some? <==> bits != 1 || b.isUnsigned(t.name))
    ensures t.Scalar? && Leaf(b, t, bits).Some? ==>
              Leaf(b, t, bits).value == ("1", if t.name in ["c_float", "c_double"] then "1.0" else "1")
    ensures t.Bool? ==> Leaf(b, t, bits) == Some(("1", "true"))
    ensures t.Enum? ==>
              (Leaf(b, t, bits).Some? <==> exists k: nat, v: nat :: FirstEnum(b, t.name, k, v))
    ensures t.Enum? ==>
              forall k: nat, v: nat :: FirstEnum(b, t.name, k, v) ==>
                var name := b.enums[k].values[v].name;
                Leaf(b, t, bits).value == (name, b.lastModule + "." + b.antiName(t.name) + "." + b.antiName(name))
    ensures !t.Scalar? && !t.Bool? && !t.Enum? ==> Leaf(b, t, bits).None?
  {
    hide EnumNamed, FirstNonZero, FirstEnum;
    if t.Enum? { EnumLeaf(b, t.name, bits); }
  }

  /** One step into a value: the first element of an array, or a field. */
  datatype Step = First | At(field: nat)

  predicate IsNamed(b: Binding, id: Id, i: nat) {
    id in b.records && i < |b.records[id].fields| && b.records[id].fields[i].name.Some?
  }

  /** The type and the bits that `steps` lead to by value through named
      fields. */
  function Target(b: Binding, t: Type, bits: int, steps: seq<Step>): (r: Option<(Type, int)>)
    decreases |steps|
  {
    if steps == [] then Some((t, bits))
    else if steps[0].First? then if t.Array? then Target(b, t.to, -1, steps[1..]) else None
    else if t.Record? && IsNamed(b, t.id, steps[0].field) then
      var f := b.records[t.id].fields[steps[0].field];
      Target(b, f.typ, f.bits, steps[1..])
    else None
  }

  /** The steps written in C, and as the module writes them. */
  function Text(b: Binding, t: Type, bits: int, steps: seq<Step>, anti: bool): (text: string)
    requires Target(b, t, bits, steps).Some?
    decreases |steps|
  {
    if steps == [] then ""
    else if steps[0].First? then "[0]" + Text(b, t.to, -1, steps[1..], anti)
    else
      var f := b.records[t.id].fields[steps[0].field];
      "." + (if anti then b.antiName(f.name.value) else f.name.value) + Text(b, f.typ, f.bits, steps[1..], anti)
  }

  /** The first coordinate of a record with an array of numbers. */
  lemma KnownText(b: Binding, id: Id)
    requires id in b.records && |b.records[id].fields| > 0
    requires b.records[id].fields[0] == Field(Some("pos"), Array(3, Scalar("c_int")), -1) && b.antiName("pos") == "pos_"
    ensures Target(b, Record(id), -1, [At(0), First]) == Some((Scalar("c_int"), -1))
    ensures Text(b, Record(id), -1, [At(0), First], false) == ".pos[0]"
    ensures Text(b, Record(id), -1, [At(0), First], true) == ".pos_[0]"
  {
    assert [At(0), First][1..] == [First] && [First][1..] == [];
    assert "[0]" + "" == "[0]" && "." + "pos" + "[0]" == ".pos[0]" && "." + "pos_" + "[0]" == ".pos_[0]";
  }

  ghost predicate LeadsTo(b: Binding, t: Type, bits: int, steps: seq<Step>) {
    && Target(b, t, bits, steps).Some?
    && Leaf(b, Target(b, t, bits, steps).value.0, Target(b, t, bits, steps).value.1).Some?
  }

  /** Some value that can be set lies within the type. */
  ghost predicate Reachable(b: Binding, t: Type, bits: int) {
    exists steps :: LeadsTo(b, t, bits, steps)
  }

  function Base(t: Type): (r: Type)
    ensures !r.Array?
  {
    if t.Array? then Base(t.to) else t
  }

  /** A named field of `outer` holds `inner` by value. */
  ghost predicate Holds(b: Binding, outer: Id, inner: Id) {
    exists i: nat :: IsNamed(b, outer, i) && Base(b.records[outer].fields[i].typ) == Record(inner)
  }

  ghost predicate Chain(b: Binding, c: seq<Id>) {
    && (forall j, k :: 0 <= j < k < |c| ==> c[j] != c[k])
    && forall j :: 0 <= j < |c| - 1 ==> Holds(b, c[j], c[j + 1])
  }

  /** No chain of distinct records, each holding the next, is longer than the
      walk goes. */
  ghost predicate Shallow(b: Binding) {
    forall c :: Chain(b, c) ==> |c| <= 64
  }

  /** Every record a type names is one of the binding. */
  predicate Known(b: Binding, t: Type) {
    Base(t).Record? ==> Base(t).id in b.records
  }

  ghost predicate WellFormed(b: Binding) {
    forall id: Id, i: nat :: IsNamed(b, id, i) ==> Known(b, b.records[id].fields[i].typ)
  }

  // ---- What a search without result has seen ----

  /** The type holds no value but those of records of `seen`. */
  predicate Dead(b: Binding, seen: set<Id>, t: Type, bits: int) {
    match t
    case Array(_, to) => Dead(b, seen, to, -1)
    case Record(id) => id in seen
    case _ => Leaf(b, t, bits).None?
  }

  /** The named fields of a record lead to nothing but records of `seen`. */
  ghost predicate DeadFields(b: Binding, seen: set<Id>, id: Id, n: nat) {
    forall i: nat :: i < n && IsNamed(b, id, i) ==>
      Dead(b, seen, b.records[id].fields[i].typ, b.records[id].fields[i].bits)
  }

  ghost predicate DeadRecord(b: Binding, seen: set<Id>, id: Id) {
    id in b.records && DeadFields(b, seen, id, |b.records[id].fields|)
  }

  lemma {:induction false} DeadGrows(b: Binding, seen: set<Id>, more: set<Id>, t: Type, bits: int)
    requires seen <= more && Dead(b, seen, t, bits)
    ensures Dead(b, more, t, bits)
    decreases t
  {
    if t.Array? { DeadGrows(b, seen, more, t.to, -1); }
  }

  lemma DeadFieldsGrow(b: Binding, seen: set<Id>, more: set<Id>, id: Id, n: nat)
    requires seen <= more && DeadFields(b, seen, id, n)
    ensures DeadFields(b, more, id, n)
  {
    forall i: nat | i < n && IsNamed(b, id, i)
      ensures Dead(b, more, b.records[id].fields[i].typ, b.records[id].fields[i].bits)
    {
      DeadGrows(b, seen, more, b.records[id].fields[i].typ, b.records[id].fields[i].bits);
    }
  }

  /** Where a closed set of records holds no value, nothing leads out of it to
      one. */
  lemma {:induction false} DeadIsUnreachable(b: Binding, seen: set<Id>, t: Type, bits: int, steps: seq<Step>)
    requires Dead(b, seen, t, bits) && forall id :: id in seen ==> DeadRecord(b, seen, id)
    ensures !LeadsTo(b, t, bits, steps)
    decreases |steps|
  {
    if steps != [] {
      if t.Array? {
        DeadIsUnreachable(b, seen, t.to, -1, steps[1..]);
      } else if t.Record? && steps[0].At? && IsNamed(b, t.id, steps[0].field) {
        var f := b.records[t.id].fields[steps[0].field];
        assert DeadRecord(b, seen, t.id);
        DeadIsUnreachable(b, seen, f.typ, f.bits, steps[1..]);
      }
    }
  }

  // ---- The first value ----

  /** One way comes before another where it takes an earlier field of the record
      they part in. */
  predicate Earlier(x: seq<Step>, y: seq<Step>)
    decreases |x|
  {
    && x != [] && y != []
    && if x[0] == y[0] then Earlier(x[1..], y[1..]) else x[0].At? && y[0].At? && x[0].field < y[0].field
  }

  /** No way to a value comes before this one. */
  ghost predicate Least(b: Binding, t: Type, bits: int, steps: seq<Step>) {
    forall other :: LeadsTo(b, t, bits, other) ==> !Earlier(other, steps)
  }

  /** `c` leads from a record down into what its fields hold. */
  ghost predicate Descent(b: Binding, c: seq<Id>) {
    |c| > 1 && forall j, k :: 0 <= j < |c| && k == j + 1 < |c| ==> Holds(b, c[j], c[k])
  }

  /** Records as C allows them: none holds itself, and they nest no deeper than
      the walk goes. */
  ghost predicate Legal(b: Binding) {
    Shallow(b) && forall c :: Descent(b, c) ==> c[0] != c[|c| - 1]
  }

  ghost predicate Below(b: Binding, outer: Id, inner: Id) {
    exists c :: Descent(b, c) && c[0] == outer && c[|c| - 1] == inner
  }

  lemma BelowFurther(b: Binding, outer: Id, id: Id, inner: Id)
    requires Below(b, outer, id) && Holds(b, id, inner)
    ensures Below(b, outer, inner)
  {
    var c :| Descent(b, c) && c[0] == outer && c[|c| - 1] == id;
    var d := c + [inner];
    assert Descent(b, d) by {
      forall j, k | 0 <= j < |d| && k == j + 1 < |d| ensures Holds(b, d[j], d[k]) {
        if k < |c| { assert Holds(b, c[j], c[k]); }
      }
    }
  }

  /** A record that a path passes and that its last record leads to goes round
      in a cycle. */
  lemma Cycle(b: Binding, path: seq<Id>, i: nat, c: seq<Id>) returns (d: seq<Id>)
    requires Chain(b, path) && i < |path| && Descent(b, c) && c[0] == path[|path| - 1] && c[|c| - 1] == path[i]
    ensures Descent(b, d) && d[0] == d[|d| - 1]
  {
    var n := |path| - i;
    d := path[i..] + c[1..];
    forall j, k | 0 <= j < |d| && k == j + 1 < |d| ensures Holds(b, d[j], d[k]) {
      if k < n {
        assert Holds(b, path[i + j], path[i + j + 1]);
      } else {
        assert d[j] == c[j - n + 1] && d[k] == c[k - n + 1] && Holds(b, c[j - n + 1], c[k - n + 1]);
      }
    }
  }

  /** What the last record of a path leads to is none of the path. */
  lemma NotBack(b: Binding, path: seq<Id>, id: Id)
    requires Legal(b) && Chain(b, path) && path != [] && Below(b, path[|path| - 1], id)
    ensures id !in path
  {
    hide Chain, Shallow, Holds;
    if id in path {
      var i :| 0 <= i < |path| && path[i] == id;
      var c :| Descent(b, c) && c[0] == path[|path| - 1] && c[|c| - 1] == id;
      var d := Cycle(b, path, i, c);
    }
  }

  /** Below the record a walk stands in, what is dead leads to nothing: not to
      a record of the path, which none below can hold. */
  lemma {:induction false} DeadBelow(b: Binding, path: seq<Id>, empty: seq<Id>, t: Type, bits: int, steps: seq<Step>)
    requires Legal(b) && Chain(b, path) && path != [] && WellFormed(b)
    requires forall id :: id in empty ==> DeadRecord(b, Items(path) + Items(empty), id)
    requires Base(t).Record? ==> Below(b, path[|path| - 1], Base(t).id)
    requires Dead(b, Items(path) + Items(empty), t, bits)
    ensures !LeadsTo(b, t, bits, steps)
    decreases |steps|
  {
    if steps != [] {
      if t.Array? {
        DeadBelow(b, path, empty, t.to, -1, steps[1..]);
      } else if t.Record? && steps[0].At? && IsNamed(b, t.id, steps[0].field) {
        var f := b.records[t.id].fields[steps[0].field];
        NotBack(b, path, t.id);
        assert DeadRecord(b, Items(path) + Items(empty), t.id);
        if Base(f.typ).Record? {
          assert Holds(b, t.id, Base(f.typ).id);
          BelowFurther(b, path[|path| - 1], t.id, Base(f.typ).id);
        }
        DeadBelow(b, path, empty, f.typ, f.bits, steps[1..]);
      }
    }
  }

  function Items(ids: seq<Id>): (s: set<Id>) {
    set id | id in ids
  }

  ghost predicate NoneBefore(b: Binding, r: Id, i: nat) {
    forall j: nat, steps :: j < i && IsNamed(b, r, j) ==>
      !LeadsTo(b, b.records[r].fields[j].typ, b.records[r].fields[j].bits, steps)
  }

  /** A way into a field, written. */
  lemma FieldSpelled(b: Binding, r: Id, i: nat, rest: seq<Step>)
    requires IsNamed(b, r, i)
    requires var f := b.records[r].fields[i]; Target(b, f.typ, f.bits, rest).Some?
    ensures var (f, steps) := (b.records[r].fields[i], [At(i)] + rest);
            && Target(b, Record(r), -1, steps) == Target(b, f.typ, f.bits, rest)
            && Text(b, Record(r), -1, steps, false) == ("." + f.name.value) + Text(b, f.typ, f.bits, rest, false)
            && Text(b, Record(r), -1, steps, true) ==
               ("." + b.antiName(f.name.value)) + Text(b, f.typ, f.bits, rest, true)
  {
    assert ([At(i)] + rest)[1..] == rest;
  }

  lemma Joined(c: string, dot: string, name: string, rest: string)
    ensures ((c + dot) + name) + rest == c + ((dot + name) + rest)
  {
  }

  lemma FirstElement(b: Binding, t: Type, bits: int, rest: seq<Step>)
    requires t.Array? && Least(b, t.to, -1, rest)
    ensures Least(b, t, bits, [First] + rest)
  {
    var steps := [First] + rest;
    assert steps[1..] == rest;
    forall other: seq<Step> | LeadsTo(b, t, bits, other) ensures !Earlier(other, steps) {
      assert other != [];
      assert LeadsTo(b, t.to, -1, other[1..]);
    }
  }

  lemma FirstAnyBits(b: Binding, r: Id, bits: int, steps: seq<Step>)
    requires Least(b, Record(r), -1, steps)
    ensures Least(b, Record(r), bits, steps)
  {
    forall other: seq<Step> | LeadsTo(b, Record(r), bits, other) ensures !Earlier(other, steps) {
      assert other != [];
      assert LeadsTo(b, Record(r), -1, other);
    }
  }

  lemma FirstField(b: Binding, r: Id, i: nat, rest: seq<Step>)
    requires IsNamed(b, r, i) && NoneBefore(b, r, i)
    requires Least(b, b.records[r].fields[i].typ, b.records[r].fields[i].bits, rest)
    ensures Least(b, Record(r), -1, [At(i)] + rest)
  {
    var steps := [At(i)] + rest;
    assert steps[1..] == rest;
    forall other: seq<Step> | LeadsTo(b, Record(r), -1, other) ensures !Earlier(other, steps) {
      assert other != [];
      var f := b.records[r].fields[other[0].field];
      assert LeadsTo(b, f.typ, f.bits, other[1..]);
    }
  }

  class Setting {
    var cPath: string
    var antiPath: string
    var cValue: string
    var antiValue: string
    /** The records entered and not yet left, and those found to hold nothing
        that can be set. */
    var path: seq<Id>
    var empty: seq<Id>
    /** The records the walk has entered, in order. */
    ghost var entered: seq<Id>

    constructor ()
      ensures cPath == "" && antiPath == "" && cValue == "" && antiValue == ""
      ensures path == [] && empty == [] && entered == []
    {
      cPath, antiPath, cValue, antiValue, path, empty, entered := "", "", "", "", [], [], [];
    }

    ghost predicate Distinct()
      reads `entered
    {
      forall j, k :: 0 <= j < k < |entered| ==> entered[j] != entered[k]
    }

    /** The walk so far: a chain of records, and a closed set of dead ones. */
    ghost predicate Walking(b: Binding)
      reads this
    {
      && WellFormed(b) && Chain(b, path) && |path| <= RECORD_DEPTH && Distinct()
      && (forall id :: id in path ==> id in b.records)
      && Items(entered) == Items(path) + Items(empty)
      && (Shallow(b) ==> forall id :: id in empty ==> DeadRecord(b, Items(path) + Items(empty), id))
    }

    /** The texts name a value within `t`, written after what they held: of
        records as C allows them, the first. */
    ghost predicate Found(b: Binding, t: Type, bits: int, c: string, anti: string, cv: string, av: string)
      reads `cPath, `antiPath, `cValue, `antiValue
    {
      exists steps :: FoundAt(b, t, bits, steps, c, anti, cv, av) && (Legal(b) ==> Least(b, t, bits, steps))
    }

    ghost predicate FoundAt(b: Binding, t: Type, bits: int, steps: seq<Step>, c: string, anti: string, cv: string,
                            av: string)
      reads `cPath, `antiPath, `cValue, `antiValue
    {
      && LeadsTo(b, t, bits, steps)
      && cPath == c + Text(b, t, bits, steps, false) && antiPath == anti + Text(b, t, bits, steps, true)
      && var v := Leaf(b, Target(b, t, bits, steps).value.0, Target(b, t, bits, steps).value.1).value;
         cValue == cv + v.0 && antiValue == av + v.1
    }

    method OnPath(r: Id) returns (found: bool)
      ensures found <==> r in path
    {
      var i := 0;
      while i < |path|
        invariant 0 <= i <= |path| && r !in path[..i]
      {
        if path[i] == r { return true; }
        i := i + 1;
      }
      assert path[..i] == path;
      found := false;
    }

    method HeldNone(r: Id) returns (found: bool)
      ensures found <==> r in empty
    {
      var i := 0;
      while i < |empty|
        invariant 0 <= i <= |empty| && r !in empty[..i]
      {
        if empty[i] == r { return true; }
        i := i + 1;
      }
      assert empty[..i] == empty;
      found := false;
    }

    /** Step into a record that is neither on the path nor known as empty. */
    method Enter(b: Binding, r: Id)
      requires Walking(b) && |path| < RECORD_DEPTH && r in b.records && r !in path && r !in empty
      requires path != [] ==> Holds(b, path[|path| - 1], r)
      modifies this`path, this`entered
      ensures path == old(path) + [r] && Walking(b)
    {
      hide DeadFields, Dead;
      path, entered := path + [r], entered + [r];
      assert r !in Items(old(entered));
      assert Items(path) == Items(old(path)) + {r} && Items(entered) == Items(old(entered)) + {r};
      if Shallow(b) {
        forall id | id in empty ensures DeadRecord(b, Items(path) + Items(empty), id) {
          DeadFieldsGrow(b, Items(old(path)) + Items(empty), Items(path) + Items(empty), id, |b.records[id].fields|);
        }
      }
    }

    /** Leave a record none of whose fields leads to a value. */
    method Leave(b: Binding, r: Id)
      requires Walking(b) && path != [] && path[|path| - 1] == r
      requires Shallow(b) ==> DeadRecord(b, Items(path) + Items(empty), r)
      modifies this`path, this`empty
      ensures path == old(path)[..|old(path)| - 1] && empty == old(empty) + [r] && Walking(b)
    {
      ghost var seen := Items(path) + Items(empty);
      path, empty := path[..|path| - 1], empty + [r];
      assert old(path) == path + [r];
      assert Items(path) + Items(empty) == seen;
    }

    /** Search the record `r`: on success the texts are extended by a way to a
        nonzero value, on failure they are as they were. */
    method SettableRecord(b: Binding, r: Id) returns (ok: bool)
      requires Walking(b) && r in b.records && (path != [] ==> Holds(b, path[|path| - 1], r))
      modifies this
      ensures path == old(path) && Distinct()
      ensures ok ==> Found(b, Record(r), -1, old(cPath), old(antiPath), old(cValue), old(antiValue))
      ensures !ok ==> Walking(b) && cPath == old(cPath) && antiPath == old(antiPath)
      ensures !ok ==> cValue == old(cValue) && antiValue == old(antiValue) && Items(old(empty)) <= Items(empty)
      ensures !ok && Shallow(b) ==> r in path || r in empty
      decreases b.records.Keys - Items(path), Record(r), 1
    {
      var full := |path| == RECORD_DEPTH;
      if full {
        TooDeep(b, path, r);
        return false;
      }
      var on := OnPath(r);
      if on { return false; }
      var none := HeldNone(r);
      if none { return false; }
      ok := EnterRecord(b, r);
    }

    /** A record not met before, entered and left again. */
    method EnterRecord(b: Binding, r: Id) returns (ok: bool)
      requires Walking(b) && |path| < RECORD_DEPTH && r in b.records && r !in path && r !in empty
      requires path != [] ==> Holds(b, path[|path| - 1], r)
      modifies this
      ensures path == old(path) && Distinct()
      ensures ok ==> Found(b, Record(r), -1, old(cPath), old(antiPath), old(cValue), old(antiValue))
      ensures !ok ==> Walking(b) && cPath == old(cPath) && antiPath == old(antiPath)
      ensures !ok ==> cValue == old(cValue) && antiValue == old(antiValue) && Items(old(empty)) <= Items(empty)
      ensures !ok ==> r in empty
      decreases b.records.Keys - Items(path), Record(r), 0
    {
      hide Found, FoundAt, Walking, DeadRecord, Shallow, Chain, Holds;
      ghost var before := path;
      Enter(b, r);
      Deeper(b, before, r);
      ok := SettableFields(b, r);
      assert (before + [r])[..|before|] == before;
      if ok {
        path := path[..|path| - 1];
      } else {
        Leave(b, r);
      }
    }

    /** The fields of the record the walk stands in, in order. */
    method SettableFields(b: Binding, r: Id) returns (ok: bool)
      requires Walking(b) && r in b.records && path != [] && path[|path| - 1] == r
      modifies this
      ensures path == old(path) && Distinct()
      ensures ok ==> Found(b, Record(r), -1, old(cPath), old(antiPath), old(cValue), old(antiValue))
      ensures !ok ==> Walking(b) && cPath == old(cPath) && antiPath == old(antiPath)
      ensures !ok ==> cValue == old(cValue) && antiValue == old(antiValue) && Items(old(empty)) <= Items(empty)
      ensures !ok && Shallow(b) ==> DeadRecord(b, Items(path) + Items(empty), r)
      decreases b.records.Keys - Items(path), b.records[r], 4
    {
      var fields, i := b.records[r].fields, 0;
      while i < |fields|
        invariant 0 <= i <= |fields| && path == old(path) && Walking(b)
        invariant cPath == old(cPath) && antiPath == old(antiPath)
        invariant cValue == old(cValue) && antiValue == old(antiValue) && Items(old(empty)) <= Items(empty)
        invariant Shallow(b) ==> DeadFields(b, Items(path) + Items(empty), r, i)
      {
        if fields[i].name.Some? {
          ok := SettableField(b, r, i);
          if ok { return; }
        }
        i := i + 1;
      }
      ok := false;
    }

    /** One field, whose name is cut off again where it leads to nothing. */
    method SettableField(b: Binding, r: Id, i: nat) returns (ok: bool)
      requires Walking(b) && path != [] && path[|path| - 1] == r && IsNamed(b, r, i)
      requires Shallow(b) ==> DeadFields(b, Items(path) + Items(empty), r, i)
      modifies this
      ensures path == old(path) && Distinct()
      ensures ok ==> Found(b, Record(r), -1, old(cPath), old(antiPath), old(cValue), old(antiValue))
      ensures !ok ==> Walking(b) && cPath == old(cPath) && antiPath == old(antiPath)
      ensures !ok ==> cValue == old(cValue) && antiValue == old(antiValue) && Items(old(empty)) <= Items(empty)
      ensures !ok && Shallow(b) ==> DeadFields(b, Items(path) + Items(empty), r, i + 1)
      decreases b.records.Keys - Items(path), b.records[r].fields[i].typ, 3
    {
      var f := b.records[r].fields[i];
      var cMark, antiMark := |cPath|, |antiPath|;
      ghost var c, a, cv, av, seen := cPath, antiPath, cValue, antiValue, Items(path) + Items(empty);
      EarlierFields(b, r, i);
      cPath := cPath + "." + f.name.value;
      antiPath := antiPath + ".";
      antiPath := antiPath + b.antiName(f.name.value);
      ok := Settable(b, f.typ, f.bits);
      if ok {
        FieldFound(b, r, i, c, a, cv, av);
      } else {
        cPath, antiPath := cPath[..cMark], antiPath[..antiMark];
        assert cPath == c && antiPath == a;
        if Shallow(b) { DeadFieldsGrow(b, seen, Items(path) + Items(empty), r, i); }
      }
    }

    /** Search one type. An array adds its index to the paths even where it
        then fails; the caller cuts them. */
    method Settable(b: Binding, t: Type, bits: int) returns (ok: bool)
      requires Walking(b) && Known(b, t)
      requires path != [] && Base(t).Record? ==> Holds(b, path[|path| - 1], Base(t).id)
      modifies this
      ensures path == old(path) && Distinct()
      ensures ok ==> Found(b, t, bits, old(cPath), old(antiPath), old(cValue), old(antiValue))
      ensures !ok ==> Walking(b) && cValue == old(cValue) && antiValue == old(antiValue)
      ensures !ok ==> Items(old(empty)) <= Items(empty)
      ensures !ok ==> old(cPath) <= cPath && old(antiPath) <= antiPath
      ensures !ok && Shallow(b) ==> Dead(b, Items(path) + Items(empty), t, bits)
      decreases b.records.Keys - Items(path), t, 2
    {
      ghost var c, a, cv, av := cPath, antiPath, cValue, antiValue;
      if t.Array? {
        cPath, antiPath := cPath + "[0]", antiPath + "[0]";
        ok := Settable(b, t.to, -1);
        assert c <= c + "[0]" && a <= a + "[0]";
        if ok { ElementFound(b, t, bits, c, a, cv, av); }
      } else if t.Record? {
        ok := SettableRecord(b, t.id);
        if ok { AnyBits(b, t.id, bits, c, a, cv, av); }
      } else {
        var v := Leaf(b, t, bits);
        ok := v.Some?;
        if ok {
          cValue, antiValue := cValue + v.value.0, antiValue + v.value.1;
          assert Target(b, t, bits, []) == Some((t, bits));
          assert c + "" == c && a + "" == a;
          assert FoundAt(b, t, bits, [], c, a, cv, av);
        }
      }
    }

    /** The fields before the one at hand lead to no value. */
    lemma EarlierFields(b: Binding, r: Id, i: nat)
      requires Walking(b) && path != [] && path[|path| - 1] == r && IsNamed(b, r, i)
      requires Shallow(b) ==> DeadFields(b, Items(path) + Items(empty), r, i)
      ensures Legal(b) ==> NoneBefore(b, r, i)
    {
      if Legal(b) {
        forall j: nat, steps | j < i && IsNamed(b, r, j)
          ensures !LeadsTo(b, b.records[r].fields[j].typ, b.records[r].fields[j].bits, steps)
        {
          var f := b.records[r].fields[j];
          if Base(f.typ).Record? {
            assert Holds(b, r, Base(f.typ).id);
            assert Descent(b, [r, Base(f.typ).id]);
          }
          DeadBelow(b, path, empty, f.typ, f.bits, steps);
        }
      }
    }

    lemma ElementFound(b: Binding, t: Type, bits: int, c: string, a: string, cv: string, av: string)
      requires t.Array? && Found(b, t.to, -1, c + "[0]", a + "[0]", cv, av)
      ensures Found(b, t, bits, c, a, cv, av)
    {
      hide Least, Legal, NoneBefore, Leaf;
      var rest :| FoundAt(b, t.to, -1, rest, c + "[0]", a + "[0]", cv, av) && (Legal(b) ==> Least(b, t.to, -1, rest));
      var steps := [First] + rest;
      assert steps[1..] == rest;
      assert c + "[0]" + Text(b, t.to, -1, rest, false) == c + Text(b, t, bits, steps, false);
      assert a + "[0]" + Text(b, t.to, -1, rest, true) == a + Text(b, t, bits, steps, true);
      assert FoundAt(b, t, bits, steps, c, a, cv, av);
      if Legal(b) { FirstElement(b, t, bits, rest); }
    }

    lemma FieldFound(b: Binding, r: Id, i: nat, c: string, a: string, cv: string, av: string)
      requires IsNamed(b, r, i)
      requires var f := b.records[r].fields[i];
               Found(b, f.typ, f.bits, c + "." + f.name.value, a + "." + b.antiName(f.name.value), cv, av)
      requires Legal(b) ==> NoneBefore(b, r, i)
      ensures Found(b, Record(r), -1, c, a, cv, av)
    {
      hide Least, Legal, NoneBefore, Leaf;
      var f := b.records[r].fields[i];
      var rest :| FoundAt(b, f.typ, f.bits, rest, c + "." + f.name.value, a + "." + b.antiName(f.name.value), cv, av) &&
        (Legal(b) ==> Least(b, f.typ, f.bits, rest));
      var steps := [At(i)] + rest;
      FieldSpelled(b, r, i, rest);
      Joined(c, ".", f.name.value, Text(b, f.typ, f.bits, rest, false));
      Joined(a, ".", b.antiName(f.name.value), Text(b, f.typ, f.bits, rest, true));
      assert FoundAt(b, Record(r), -1, steps, c, a, cv, av) by { hide Text; }
      if Legal(b) { FirstField(b, r, i, rest); }
    }

    /** A record ignores the bits it stands in. */
    lemma AnyBits(b: Binding, r: Id, bits: int, c: string, a: string, cv: string, av: string)
      requires Found(b, Record(r), -1, c, a, cv, av)
      ensures Found(b, Record(r), bits, c, a, cv, av)
    {
      hide Least, Legal, NoneBefore;
      var steps :| FoundAt(b, Record(r), -1, steps, c, a, cv, av) && (Legal(b) ==> Least(b, Record(r), -1, steps));
      assert steps != [];
      assert FoundAt(b, Record(r), bits, steps, c, a, cv, av);
      if Legal(b) { FirstAnyBits(b, r, bits, steps); }
    }
  }

  lemma Deeper(b: Binding, path: seq<Id>, r: Id)
    requires r in b.records && r !in path
    ensures b.records.Keys - Items(path + [r]) < b.records.Keys - Items(path)
  {
    assert r in b.records.Keys - Items(path) && r in path + [r];
    assert forall id :: id in path ==> id in path + [r];
  }

  /** A walk that stands as deep as it goes has no record below it that is
      not on the path. */
  lemma TooDeep(b: Binding, path: seq<Id>, r: Id)
    requires Chain(b, path) && |path| == RECORD_DEPTH && Holds(b, path[|path| - 1], r)
    ensures Shallow(b) ==> r in path
  {
    var c := path + [r];
    if r !in path {
      assert Chain(b, c) by {
        forall j | 0 <= j < |c| - 1 ensures Holds(b, c[j], c[j + 1]) {
          if j < |path| - 1 { assert Holds(b, path[j], path[j + 1]); }
        }
      }
    }
  }

  /** The search of the probe for a value of a field, from its type. It finds
      one only where there is one, and names it; and where no chain of records
      is deeper than the walk goes, it finds one exactly where there is one. Of
      records none of which holds itself, it is the first. */
  method FirstValue(b: Binding, t: Type, bits: int) returns (ok: bool, s: Setting)
    requires WellFormed(b) && Known(b, t)
    ensures fresh(s) && s.path == [] && s.Distinct()
    ensures ok ==> s.Found(b, t, bits, "", "", "", "")
    ensures !ok ==> s.cValue == "" && s.antiValue == ""
    ensures Shallow(b) ==> (ok <==> Reachable(b, t, bits))
  {
    s := new Setting();
    ok := s.Settable(b, t, bits);
    if ok {
      ghost var steps :| s.FoundAt(b, t, bits, steps, "", "", "", "") && (Legal(b) ==> Least(b, t, bits, steps));
      assert LeadsTo(b, t, bits, steps);
    } else if Shallow(b) {
      forall steps ensures !LeadsTo(b, t, bits, steps) {
        DeadIsUnreachable(b, Items(s.path) + Items(s.empty), t, bits, steps);
      }
    }
  }
}
