/** The blend draft editor of the coffee-catalog screen
    (src/components/CoffeeManagement.js): a draft entry with a name, a kind
    and up to four blend components, the one-field auto-balance applied when
    a percentage is edited, and the validation gate in front of submit. */
module CoffeeCatalog {
  import opened Lists

  /** The text of a percentage box: empty, or an integer. */
  datatype Pct = Empty | Num(n: int)

  /** One blend row: the single-origin coffee it names and its share. */
  datatype Component = Component(coffee: string, percentage: Pct)

  datatype Kind = Single | Blend

  /** One call of the row-change handler: the field it names and the value. */
  datatype Edit = SetCoffee(name: string) | SetPercentage(value: Pct)

  /** Catalog identifiers are opaque strings handed out by the backend. */
  type Id = string

  /** A stored catalog entry as listed by the backend; blends carry a
      `components` list, single origins do not. */
  datatype Entry = Entry(id: Id, name: string, components: Option<seq<Component>>)

  /** The body sent to the backend: the draft itself. */
  datatype Payload = Payload(name: string, kind: Kind, components: seq<Component>)

  /** A new entry is created; an entry being edited is replaced by id. */
  datatype Request = Create(payload: Payload) | Update(id: Id, payload: Payload)

  /** A blend may have at most this many components. */
  const MaxComponents := 4

  const EmptyComponent := Component("", Empty)

  /** `Number(p || 0)`: an empty box counts as zero, a number as itself. */
  function Value(p: Pct): (v: int)
    ensures p.Empty? ==> v == 0
    ensures p.Num? ==> v == p.n
  {
    match p
    case Empty => 0
    case Num(n) => n
  }

  function Max(a: int, b: int): (m: int)
    ensures m >= a && m >= b && (m == a || m == b)
  {
    if a >= b then a else b
  }

  /** The total of the percentages (the `reduce` over the rows). */
  function Sum(cs: seq<Component>): (total: int)
    ensures NonNegative(cs) ==> total >= 0
    decreases |cs|
  {
    if cs == [] then 0 else Value(cs[0].percentage) + Sum(cs[1..])
  }

  /** Every percentage is zero or more. */
  ghost predicate NonNegative(cs: seq<Component>) {
    forall j :: 0 <= j < |cs| ==> Value(cs[j].percentage) >= 0
  }

  /** The state the auto-balance keeps: no negative share, total at most 100. */
  ghost predicate Balanced(cs: seq<Component>) {
    NonNegative(cs) && Sum(cs) <= 100
  }

  /** A row is filled in when both its coffee and its percentage box are
      non-empty (the text "0" is non-empty). */
  predicate Filled(c: Component)
    ensures c.coffee == "" || c.percentage.Empty? ==> !Filled(c)
    ensures c.coffee != "" && c.percentage == Num(0) ==> Filled(c)
  {
    c.coffee != "" && c.percentage.Num?
  }

  /** `validateBlend`: the shares add up to exactly 100 and every row is
      filled in. */
  predicate ValidBlend(cs: seq<Component>)
    ensures ValidBlend(cs) ==> cs != [] && Filled(cs[0])
  {
    Sum(cs) == 100 && forall j :: 0 <= j < |cs| ==> Filled(cs[j])
  }

  /** `handleAddComponent`: one empty row is appended while there are fewer
      than four; otherwise nothing changes. */
  function Added(cs: seq<Component>): (r: seq<Component>)
    ensures |cs| < MaxComponents ==> r == cs + [EmptyComponent]
    ensures |cs| >= MaxComponents ==> r == cs
    ensures |r| <= Max(|cs|, MaxComponents)
  {
    if |cs| < MaxComponents then cs + [EmptyComponent] else cs
  }

  /** `handleComponentChange`: the edited field is written into row `index`
      and no other row or field changes; for a percentage, when the new total
      would pass 100 the edited row alone takes the overflow, floored at zero
      (ClampRule states the stored value). */
  function WithEdit(cs: seq<Component>, index: nat, edit: Edit): (r: seq<Component>)
    requires index < |cs|
    ensures |r| == |cs|
    ensures forall j :: 0 <= j < |cs| && j != index ==> r[j] == cs[j]
    ensures edit.SetCoffee? ==> r[index] == cs[index].(coffee := edit.name)
    ensures edit.SetPercentage? ==> r[index].coffee == cs[index].coffee
  {
    match edit
    case SetCoffee(name) => cs[index := cs[index].(coffee := name)]
    case SetPercentage(v) =>
      var edited := cs[index := cs[index].(percentage := v)];
      edited[index := edited[index].(percentage := Balance(Sum(edited), v))]
  }

  /** The value stored for a typed percentage `v` when the rows would total
      `total`: above 100 the edited row absorbs the overflow, floored at 0. */
  function Balance(total: int, v: Pct): (stored: Pct)
    ensures total <= 100 ==> stored == v
    ensures total > 100 ==>
              stored.Num? && stored.n >= 0 && (total - Value(v)) + stored.n == Max(total - Value(v), 100)
  {
    if total > 100 then Num(Max(0, 100 - (total - Value(v)))) else v
  }

  /** The total computed by the `reduce` in `handleComponentChange`: the row
      at `index` contributes the typed value, every other row its stored
      share. */
  method EditedTotal(edited: seq<Component>, index: nat, value: Pct) returns (total: int)
    requires index < |edited| && edited[index].percentage == value
    ensures total == Sum(edited)
  {
    total := 0;
    var i := 0;
    while i < |edited|
      invariant 0 <= i <= |edited|
      invariant total == Sum(edited[..i])
    {
      assert edited[..i + 1] == edited[..i] + [edited[i]];
      SumAppend(edited[..i], [edited[i]]);
      total := if i == index then total + Value(value) else total + Value(edited[i].percentage);
      i := i + 1;
    }
    assert edited[..i] == edited;
  }

  // ---------------------------------------------------------------------
  // Lemmas about the total

  lemma {:induction false} SumAppend(a: seq<Component>, b: seq<Component>)
    ensures Sum(a + b) == Sum(a) + Sum(b)
    decreases |a|
  {
    if a == [] {
      assert a + b == b;
    } else {
      assert (a + b)[1..] == a[1..] + b;
      SumAppend(a[1..], b);
    }
  }

  /** Replacing one row changes the total by the difference of their shares. */
  lemma {:induction false} SumUpdate(cs: seq<Component>, index: nat, c: Component)
    requires index < |cs|
    ensures Sum(cs[index := c]) == Sum(cs) - Value(cs[index].percentage) + Value(c.percentage)
    decreases |cs|
  {
    if index == 0 {
      assert cs[0 := c][1..] == cs[1..];
    } else {
      assert cs[index := c][1..] == cs[1..][index - 1 := c];
      SumUpdate(cs[1..], index - 1, c);
    }
  }

  /** The total of the other rows is the total less the dropped row's share. */
  lemma {:induction false} SumWithout(cs: seq<Component>, index: nat)
    requires index < |cs|
    ensures Sum(Without(cs, index)) == Sum(cs) - Value(cs[index].percentage)
    decreases |cs|
  {
    if index == 0 {
      WithoutOutOfRange(cs[1..], -1);
      assert Without(cs, 0) == cs[1..];
    } else {
      var rest := Without(cs[1..], index - 1);
      SumWithout(cs[1..], index - 1);
      assert Without(cs, index) == [cs[0]] + rest;
      assert ([cs[0]] + rest)[1..] == rest;
    }
  }

  /** With no negative share, no single row exceeds the total. */
  lemma {:induction false} ShareAtMostSum(cs: seq<Component>, j: nat)
    requires NonNegative(cs) && j < |cs|
    ensures 0 <= Value(cs[j].percentage) <= Sum(cs)
  {
    SumWithout(cs, j);
    WithoutAt(cs, j);
    assert NonNegative(Without(cs, j));
  }

  // ---------------------------------------------------------------------
  // Lemmas about an edit

  /** The auto-balance rule, in terms of S, the total of the other rows: a
      value v with S + v > 100 is stored as max(0, 100 - S); otherwise v is
      stored as typed. */
  lemma ClampRule(cs: seq<Component>, index: nat, v: Pct)
    requires index < |cs|
    ensures var s := Sum(Without(cs, index));
            WithEdit(cs, index, SetPercentage(v))[index].percentage ==
              if s + Value(v) > 100 then Num(Max(0, 100 - s)) else v
  {
    var s := Sum(Without(cs, index));
    var edited := cs[index := cs[index].(percentage := v)];
    SumWithout(cs, index);
    SumUpdate(cs, index, edited[index]);
    assert Sum(edited) - Value(v) == s;
  }

  /** The total after a percentage edit: S + v when that is at most 100, and
      otherwise the larger of 100 and S. */
  lemma TotalAfterEdit(cs: seq<Component>, index: nat, v: Pct)
    requires index < |cs|
    ensures var s := Sum(Without(cs, index));
            Sum(WithEdit(cs, index, SetPercentage(v))) ==
              if s + Value(v) <= 100 then s + Value(v) else Max(s, 100)
  {
    var s := Sum(Without(cs, index));
    var edited := cs[index := cs[index].(percentage := v)];
    SumWithout(cs, index);
    SumUpdate(cs, index, edited[index]);
    assert Sum(edited) == s + Value(v);
    var c := edited[index].(percentage := Balance(s + Value(v), v));
    SumUpdate(edited, index, c);
  }

  /** When the other rows hold no negative share and total at most 100, a
      percentage edit leaves the total at most 100; when it clamps, the total
      is exactly 100 and the stored share lies in [0, 100]. */
  lemma EditBoundsTotal(cs: seq<Component>, index: nat, v: Pct)
    requires index < |cs|
    requires NonNegative(Without(cs, index)) && Sum(Without(cs, index)) <= 100
    ensures Sum(WithEdit(cs, index, SetPercentage(v))) <= 100
    ensures var s := Sum(Without(cs, index));
            s + Value(v) > 100 ==>
              Sum(WithEdit(cs, index, SetPercentage(v))) == 100 &&
              0 <= Value(WithEdit(cs, index, SetPercentage(v))[index].percentage) <= 100
  {
    TotalAfterEdit(cs, index, v);
    ClampRule(cs, index, v);
  }

  /** Every edit with a non-negative value keeps a balanced draft balanced. */
  lemma EditKeepsBalanced(cs: seq<Component>, index: nat, edit: Edit)
    requires index < |cs| && Balanced(cs)
    requires edit.SetPercentage? ==> Value(edit.value) >= 0
    ensures Balanced(WithEdit(cs, index, edit))
  {
    var r := WithEdit(cs, index, edit);
    if edit.SetPercentage? {
      var v := edit.value;
      SumWithout(cs, index);
      WithoutAt(cs, index);
      assert NonNegative(Without(cs, index)) by {
        forall j | 0 <= j < |Without(cs, index)|
          ensures Value(Without(cs, index)[j].percentage) >= 0
        {
          if j >= index { assert Without(cs, index)[j] == cs[j + 1]; }
        }
      }
      EditBoundsTotal(cs, index, v);
      ClampRule(cs, index, v);
    } else {
      SumUpdate(cs, index, r[index]);
    }
  }

  /** Repeating the same edit changes nothing more. */
  lemma EditIdempotent(cs: seq<Component>, index: nat, edit: Edit)
    requires index < |cs|
    ensures WithEdit(WithEdit(cs, index, edit), index, edit) == WithEdit(cs, index, edit)
  {
    var r := WithEdit(cs, index, edit);
    var r2 := WithEdit(r, index, edit);
    if edit.SetPercentage? {
      OthersUnchanged(cs, r, index);
      ClampRule(cs, index, edit.value);
      ClampRule(r, index, edit.value);
      assert r2[index] == r[index];
    }
    assert r2 == r;
  }

  /** Typing the stored (possibly clamped) value back into the edited row
      leaves the draft as it is. */
  lemma ReapplyStored(cs: seq<Component>, index: nat, v: Pct)
    requires index < |cs|
    ensures var r := WithEdit(cs, index, SetPercentage(v));
            WithEdit(r, index, SetPercentage(r[index].percentage)) == r
  {
    var r := WithEdit(cs, index, SetPercentage(v));
    var w := r[index].percentage;
    var r2 := WithEdit(r, index, SetPercentage(w));
    OthersUnchanged(cs, r, index);
    ClampRule(cs, index, v);
    ClampRule(r, index, w);
    assert r2[index] == r[index];
    assert r2 == r;
  }

  /** Two drafts that agree outside row `index` have the same other rows. */
  lemma OthersUnchanged(cs: seq<Component>, r: seq<Component>, index: nat)
    requires index < |cs| == |r|
    requires forall j :: 0 <= j < |cs| && j != index ==> r[j] == cs[j]
    ensures Without(r, index) == Without(cs, index)
  {
    WithoutInRange(cs, index);
    WithoutInRange(r, index);
    assert r[..index] == cs[..index];
    assert r[index + 1..] == cs[index + 1..];
  }

  // ---------------------------------------------------------------------
  // Lemmas about adding and removing rows, and about validation

  /** Adding a row never takes the count past four and keeps the balance. */
  lemma AddKeepsBounds(cs: seq<Component>)
    ensures |cs| <= MaxComponents ==> |Added(cs)| <= MaxComponents
    ensures Balanced(cs) ==> Balanced(Added(cs))
  {
    if |cs| < MaxComponents {
      SumAppend(cs, [EmptyComponent]);
      assert Sum([EmptyComponent]) == 0 by {
        assert [EmptyComponent][..0] == [];
      }
    }
  }

  /** Removing the row just added restores the draft. */
  lemma RemoveUndoesAdd(cs: seq<Component>)
    ensures Without(Added(cs), |cs|) == cs
  {
    if |cs| < MaxComponents {
      WithoutAppended(cs, EmptyComponent);
    } else {
      WithoutOutOfRange(cs, |cs|);
    }
  }

  /** Removing a row keeps the balance; removing any row but the first (the
      only ones the screen offers) keeps the first row and at least one row. */
  lemma RemoveKeepsBounds(cs: seq<Component>, index: int)
    ensures Balanced(cs) ==> Balanced(Without(cs, index))
    ensures 0 < index && cs != [] ==> Without(cs, index) != [] && Without(cs, index)[0] == cs[0]
  {
    if 0 <= index < |cs| {
      var r := Without(cs, index);
      WithoutAt(cs, index);
      SumWithout(cs, index);
      if Balanced(cs) {
        forall j | 0 <= j < |r| ensures Value(r[j].percentage) >= 0 {
          if j >= index { assert r[j] == cs[j + 1]; }
        }
      }
    } else {
      WithoutOutOfRange(cs, index);
    }
  }

  /** A blend that passes validation has at least one row, and when no share
      is negative every share lies in [0, 100]. */
  lemma ValidBlendShape(cs: seq<Component>)
    requires ValidBlend(cs)
    ensures |cs| >= 1
    ensures NonNegative(cs) ==> forall j :: 0 <= j < |cs| ==> 0 <= Value(cs[j].percentage) <= 100
  {
    if NonNegative(cs) {
      forall j | 0 <= j < |cs| ensures 0 <= Value(cs[j].percentage) <= 100 {
        ShareAtMostSum(cs, j);
      }
    }
  }

  /** Validation is decided row by row and by the total: it fails on a row
      left blank, and a row holding "0" still counts as filled. */
  lemma ValidationExamples()
    ensures ValidBlend([Component("A", Num(60)), Component("B", Num(40))])
    ensures !ValidBlend([Component("A", Num(60)), Component("B", Num(30))])
    ensures !ValidBlend([Component("A", Num(60)), Component("B", Num(50))])
    ensures ValidBlend([Component("A", Num(100)), Component("B", Num(0))])
    ensures !ValidBlend([Component("A", Num(100)), Component("B", Empty)])
    ensures !ValidBlend([])
  {
    var a := [Component("A", Num(60)), Component("B", Num(40))];
    assert a[..1] == [a[0]] && [a[0]][..0] == [];
    var b := [Component("A", Num(60)), Component("B", Num(30))];
    assert b[..1] == [b[0]] && [b[0]][..0] == [];
    var c := [Component("A", Num(60)), Component("B", Num(50))];
    assert c[..1] == [c[0]] && [c[0]][..0] == [];
    var d := [Component("A", Num(100)), Component("B", Num(0))];
    assert d[..1] == [d[0]] && [d[0]][..0] == [];
    var e := [Component("A", Num(100)), Component("B", Empty)];
    assert !Filled(e[1]);
  }

  /** Validation does not ask for shares in [0, 100]: a negative share that
      brings the total back to 100 passes. */
  lemma NegativeShareAccepted()
    ensures ValidBlend([Component("A", Num(110)), Component("B", Num(-10))])
  {
    var f := [Component("A", Num(110)), Component("B", Num(-10))];
    assert f[1..][1..] == [];
  }

  /** Typing 50 into the second row of [A 60, B empty] stores 40, so
      [A 60, B 50] cannot be reached by edits alone. */
  lemma ClampExample()
    ensures WithEdit([Component("A", Num(60)), Component("B", Empty)], 1, SetPercentage(Num(50)))
         == [Component("A", Num(60)), Component("B", Num(40))]
  {
    var cs := [Component("A", Num(60)), Component("B", Empty)];
    ClampRule(cs, 1, Num(50));
    WithoutInRange(cs, 1);
    assert Without(cs, 1) == [cs[0]];
    assert [cs[0]][..0] == [];
  }

  // ---------------------------------------------------------------------
  // The editor

  /** The catalog dialog's state: the `newCoffee` draft (name, kind,
      components), the dialog's kind, and the id of the entry being edited
      (none while adding). */
  class BlendEditor {
    var name: string
    var kind: Kind
    var components: seq<Component>
    var dialogKind: Kind
    var editing: Option<Id>

    /** The draft the screen starts with and returns to after a save. */
    predicate IsInitialDraft()
      reads this
    {
      name == "" && kind == Single && components == [EmptyComponent]
    }

    function Draft(): Payload
      reads this
    {
      Payload(name, kind, components)
    }

    constructor ()
      ensures IsInitialDraft() && dialogKind == Single && editing == None
    {
      name, kind, components := "", Single, [EmptyComponent];
      dialogKind, editing := Single, None;
    }

    /** `openAddDialog`: a fresh draft of the chosen kind; a blend starts
        with one empty row, a single origin with none. */
    method OpenAdd(k: Kind)
      modifies this
      ensures name == "" && kind == k && dialogKind == k && editing == None
      ensures components == if k == Blend then [EmptyComponent] else []
    {
      editing := None;
      dialogKind := k;
      name, kind := "", k;
      components := if k == Blend then [EmptyComponent] else [];
    }

    /** `handleEdit`: the stored entry is loaded as it is; its kind is
        inferred from whether it has a `components` list at all. */
    method OpenEdit(entry: Entry)
      modifies this
      ensures editing == Some(entry.id) && name == entry.name
      ensures kind == (if entry.components.Some? then Blend else Single) && dialogKind == kind
      ensures components == if entry.components.Some? then entry.components.value else []
    {
      editing := Some(entry.id);
      name := entry.name;
      kind := if entry.components.Some? then Blend else Single;
      components := if entry.components.Some? then entry.components.value else [];
      dialogKind := kind;
    }

    /** The name box writes the name and nothing else. */
    method SetName(value: string)
      modifies this
      ensures name == value
      ensures kind == old(kind) && components == old(components)
      ensures dialogKind == old(dialogKind) && editing == old(editing)
    {
      name := value;
    }

    method AddComponent()
      modifies this
      ensures components == Added(old(components))
      ensures name == old(name) && kind == old(kind)
      ensures dialogKind == old(dialogKind) && editing == old(editing)
      ensures old(|components|) <= MaxComponents ==> |components| <= MaxComponents
      ensures old(Balanced(components)) ==> Balanced(components)
    {
      AddKeepsBounds(components);
      if |components| < MaxComponents {
        components := components + [EmptyComponent];
      }
    }

    method RemoveComponent(index: int)
      modifies this
      ensures components == Without(old(components), index)
      ensures 0 <= index < old(|components|) ==>
                components == old(components[..index] + components[index + 1..])
      ensures name == old(name) && kind == old(kind)
      ensures dialogKind == old(dialogKind) && editing == old(editing)
      ensures old(Balanced(components)) ==> Balanced(components)
      ensures 0 < index && old(components) != [] ==> components != [] && components[0] == old(components[0])
    {
      if 0 <= index < |components| { WithoutInRange(components, index); }
      RemoveKeepsBounds(components, index);
      components := Without(components, index);
    }

    /** `handleComponentChange`: the row is copied, the field written, and
        for a percentage the total checked and the edited value clamped. */
    method ChangeComponent(index: nat, edit: Edit)
      requires index < |components|
      modifies this
      ensures components == WithEdit(old(components), index, edit)
      ensures name == old(name) && kind == old(kind)
      ensures dialogKind == old(dialogKind) && editing == old(editing)
      ensures old(Balanced(components)) && (edit.SetPercentage? ==> Value(edit.value) >= 0) ==>
                Balanced(components)
    {
      if Balanced(components) && (edit.SetPercentage? ==> Value(edit.value) >= 0) {
        EditKeepsBalanced(components, index, edit);
      }
      var newComponents := components;
      match edit {
        case SetCoffee(n) =>
          newComponents := newComponents[index := newComponents[index].(coffee := n)];
        case SetPercentage(value) =>
          newComponents := newComponents[index := newComponents[index].(percentage := value)];
          var total := EditedTotal(newComponents, index, value);
          if total > 100 {
            var clamped := Max(0, 100 - (total - Value(value)));
            newComponents := newComponents[index := newComponents[index].(percentage := Num(clamped))];
          } else {
            assert newComponents[index := newComponents[index].(percentage := value)] == newComponents;
          }
      }
      components := newComponents;
    }

    /** `handleSubmit`: a blend dialog whose draft fails validation sends
        nothing and keeps the draft; otherwise the draft is sent (created,
        or updated by id while editing) and, unless the request call throws,
        the draft is reset. `fetch` does not throw on an HTTP error status,
        so a rejected save also resets the draft. */
    method Submit(sendDidNotThrow: bool) returns (request: Option<Request>)
      modifies this
      ensures request.None? <==> old(dialogKind) == Blend && !ValidBlend(old(components))
      ensures request.Some? ==>
                request.value == if old(editing).Some? then Update(old(editing).value, old(Draft()))
                                 else Create(old(Draft()))
      ensures request.Some? && sendDidNotThrow ==> IsInitialDraft()
      ensures request.None? || !sendDidNotThrow ==>
                name == old(name) && kind == old(kind) && components == old(components)
      ensures dialogKind == old(dialogKind) && editing == old(editing)
    {
      if dialogKind == Blend && !ValidBlend(components) {
        return None;
      }
      var payload := Draft();
      request := if editing.Some? then Some(Update(editing.value, payload)) else Some(Create(payload));
      if sendDidNotThrow {
        name, kind, components := "", Single, [EmptyComponent];
      }
    }
  }
}
