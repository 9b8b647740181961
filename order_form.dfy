/** The order draft editor of the order-entry screen
    (src/components/OrderForm.js): customer-level fields plus a list of
    coffee lines, edited one field at a time, flattened into one record per
    line when the order is submitted. */
module OrderForm {
  import opened Lists

  /** One coffee line. Every field is the text of its form control. */
  datatype Line = Line(coffeeType: string, quantity: string, bagSize: string, grindSize: string)

  datatype LineField = CoffeeType | Quantity | BagSize | GrindSize

  /** One record of the submitted array: the order's shared fields, the
      completion marker and one line's own fields, and nothing else. */
  datatype OrderRecord = OrderRecord(
    customer: string,
    customLabels: bool,
    deliveryMethod: string,
    completed: bool,
    coffeeType: string,
    quantity: string,
    bagSize: string,
    grindSize: string)

  /** The line the form starts with and appends: only the grind has a value. */
  const DefaultLine := Line("", "", "", "Whole Bean")

  function Field(l: Line, f: LineField): (value: string) {
    match f
    case CoffeeType => l.coffeeType
    case Quantity => l.quantity
    case BagSize => l.bagSize
    case GrindSize => l.grindSize
  }

  /** `{ ...line, [field]: value }`: the named field takes the value and the
      other fields keep theirs. */
  function WithField(l: Line, f: LineField, value: string): (r: Line)
    ensures Field(r, f) == value
    ensures forall g :: g != f ==> Field(r, g) == Field(l, g)
  {
    match f
    case CoffeeType => l.(coffeeType := value)
    case Quantity => l.(quantity := value)
    case BagSize => l.(bagSize := value)
    case GrindSize => l.(grindSize := value)
  }

  /** The record a line becomes on submit. */
  function Record(customer: string, customLabels: bool, deliveryMethod: string, l: Line): (rec: OrderRecord)
    ensures rec.customer == customer && rec.customLabels == customLabels
    ensures rec.deliveryMethod == deliveryMethod && !rec.completed
    ensures LineOf(rec) == l
  {
    OrderRecord(customer, customLabels, deliveryMethod, false,
                l.coffeeType, l.quantity, l.bagSize, l.grindSize)
  }

  /** The `transformedOrders` map of `handleSubmit`: one record per line, in
      line order. */
  function Flatten(customer: string, customLabels: bool, deliveryMethod: string, lines: seq<Line>): (r: seq<OrderRecord>)
    ensures |r| == |lines|
    decreases |lines|
  {
    if lines == [] then []
    else [Record(customer, customLabels, deliveryMethod, lines[0])]
         + Flatten(customer, customLabels, deliveryMethod, lines[1..])
  }

  /** The line a record was made from. */
  function LineOf(r: OrderRecord): (l: Line) {
    Line(r.coffeeType, r.quantity, r.bagSize, r.grindSize)
  }

  function LinesOf(rs: seq<OrderRecord>): (ls: seq<Line>)
    ensures |ls| == |rs|
    decreases |rs|
  {
    if rs == [] then [] else [LineOf(rs[0])] + LinesOf(rs[1..])
  }

  // ---------------------------------------------------------------------
  // Lemmas about flattening

  /** Record k carries the order's customer, labels flag and delivery
      method, `completed = false`, and line k's four fields. */
  lemma {:induction false} FlattenAt(customer: string, customLabels: bool, deliveryMethod: string,
                                     lines: seq<Line>, k: nat)
    requires k < |lines|
    ensures Flatten(customer, customLabels, deliveryMethod, lines)[k] ==
              OrderRecord(customer, customLabels, deliveryMethod, false,
                          lines[k].coffeeType, lines[k].quantity, lines[k].bagSize, lines[k].grindSize)
    decreases |lines|
  {
    if k > 0 {
      FlattenAt(customer, customLabels, deliveryMethod, lines[1..], k - 1);
    }
  }

  /** Flattening maps over the lines: it splits at any concatenation. */
  lemma {:induction false} FlattenAppend(customer: string, customLabels: bool, deliveryMethod: string,
                                         a: seq<Line>, b: seq<Line>)
    ensures Flatten(customer, customLabels, deliveryMethod, a + b) ==
              Flatten(customer, customLabels, deliveryMethod, a) + Flatten(customer, customLabels, deliveryMethod, b)
    decreases |a|
  {
    if a == [] {
      assert a + b == b;
    } else {
      assert (a + b)[1..] == a[1..] + b;
      FlattenAppend(customer, customLabels, deliveryMethod, a[1..], b);
    }
  }

  /** The lines can be read back from the records: nothing of a line is lost. */
  lemma {:induction false} FlattenRoundTrip(customer: string, customLabels: bool, deliveryMethod: string,
                                            lines: seq<Line>)
    ensures LinesOf(Flatten(customer, customLabels, deliveryMethod, lines)) == lines
    decreases |lines|
  {
    if lines != [] {
      var rs := Flatten(customer, customLabels, deliveryMethod, lines);
      assert rs[1..] == Flatten(customer, customLabels, deliveryMethod, lines[1..]);
      FlattenRoundTrip(customer, customLabels, deliveryMethod, lines[1..]);
      assert [lines[0]] + lines[1..] == lines;
    }
  }

  /** Appending a line appends its record. */
  lemma FlattenAfterAdd(customer: string, customLabels: bool, deliveryMethod: string, lines: seq<Line>)
    ensures Flatten(customer, customLabels, deliveryMethod, lines + [DefaultLine]) ==
              Flatten(customer, customLabels, deliveryMethod, lines) + [Record(customer, customLabels, deliveryMethod, DefaultLine)]
  {
    FlattenAppend(customer, customLabels, deliveryMethod, lines, [DefaultLine]);
  }

  /** Removing line i removes record i, and nothing else. */
  lemma FlattenAfterRemove(customer: string, customLabels: bool, deliveryMethod: string, lines: seq<Line>, i: int)
    ensures Flatten(customer, customLabels, deliveryMethod, Without(lines, i)) ==
              Without(Flatten(customer, customLabels, deliveryMethod, lines), i)
  {
    var rs := Flatten(customer, customLabels, deliveryMethod, lines);
    if 0 <= i < |lines| {
      WithoutInRange(lines, i);
      WithoutInRange(rs, i);
      var before, after := lines[..i], lines[i + 1..];
      assert lines == before + ([lines[i]] + after);
      FlattenAppend(customer, customLabels, deliveryMethod, before, [lines[i]] + after);
      FlattenAppend(customer, customLabels, deliveryMethod, [lines[i]], after);
      FlattenAppend(customer, customLabels, deliveryMethod, before, after);
      assert rs[..i] == Flatten(customer, customLabels, deliveryMethod, before);
      assert rs[i + 1..] == Flatten(customer, customLabels, deliveryMethod, after);
    } else {
      WithoutOutOfRange(lines, i);
      WithoutOutOfRange(rs, i);
    }
  }

  /** Changing a field of line i changes record i only. */
  lemma FlattenAfterChange(customer: string, customLabels: bool, deliveryMethod: string,
                           lines: seq<Line>, i: nat, f: LineField, value: string)
    requires i < |lines|
    ensures Flatten(customer, customLabels, deliveryMethod, lines[i := WithField(lines[i], f, value)]) ==
              Flatten(customer, customLabels, deliveryMethod, lines)[i := Record(customer, customLabels, deliveryMethod, WithField(lines[i], f, value))]
  {
    var changed := lines[i := WithField(lines[i], f, value)];
    var r := Flatten(customer, customLabels, deliveryMethod, changed);
    var rs := Flatten(customer, customLabels, deliveryMethod, lines);
    forall k | 0 <= k < |lines|
      ensures r[k] == rs[i := Record(customer, customLabels, deliveryMethod, changed[i])][k]
    {
      FlattenAt(customer, customLabels, deliveryMethod, changed, k);
      FlattenAt(customer, customLabels, deliveryMethod, lines, k);
    }
  }

  /** The two-line order of customer "Jane" flattens into two records that
      share her fields and keep their own line fields. */
  lemma FlattenExample()
    ensures Flatten("Jane", true, "Pickup",
                    [Line("Brasil", "2", "5lb", "Whole Bean"), Line("Ethiopia", "1", "2lb", "Drip")]) ==
            [OrderRecord("Jane", true, "Pickup", false, "Brasil", "2", "5lb", "Whole Bean"),
             OrderRecord("Jane", true, "Pickup", false, "Ethiopia", "1", "2lb", "Drip")]
  {
    var lines := [Line("Brasil", "2", "5lb", "Whole Bean"), Line("Ethiopia", "1", "2lb", "Drip")];
    assert lines[1..][1..] == [];
  }

  // ---------------------------------------------------------------------
  // The editor

  /** The order form's `order` state. */
  class OrderDraft {
    var customer: string
    var customLabels: bool
    var deliveryMethod: string
    var coffeeOrders: seq<Line>

    /** The draft the form starts with and returns to after a submit. */
    predicate IsInitial()
      reads this
    {
      customer == "" && !customLabels && deliveryMethod == "" && coffeeOrders == [DefaultLine]
    }

    function Records(): seq<OrderRecord>
      reads this
    {
      Flatten(customer, customLabels, deliveryMethod, coffeeOrders)
    }

    constructor ()
      ensures IsInitial()
    {
      customer, customLabels, deliveryMethod := "", false, "";
      coffeeOrders := [DefaultLine];
    }

    method SetCustomer(value: string)
      modifies this
      ensures customer == value
      ensures customLabels == old(customLabels) && deliveryMethod == old(deliveryMethod)
      ensures coffeeOrders == old(coffeeOrders)
    {
      customer := value;
    }

    method SetDeliveryMethod(value: string)
      modifies this
      ensures deliveryMethod == value
      ensures customer == old(customer) && customLabels == old(customLabels)
      ensures coffeeOrders == old(coffeeOrders)
    {
      deliveryMethod := value;
    }

    method SetCustomLabels(value: bool)
      modifies this
      ensures customLabels == value
      ensures customer == old(customer) && deliveryMethod == old(deliveryMethod)
      ensures coffeeOrders == old(coffeeOrders)
    {
      customLabels := value;
    }

    /** `handleCoffeeOrderChange`: the lines are copied and line `index`
        gets the new field value. */
    method ChangeLine(index: nat, f: LineField, value: string)
      requires index < |coffeeOrders|
      modifies this
      ensures coffeeOrders == old(coffeeOrders)[index := WithField(old(coffeeOrders)[index], f, value)]
      ensures customer == old(customer) && customLabels == old(customLabels)
      ensures deliveryMethod == old(deliveryMethod)
      ensures Records() == old(Records())[index := Record(customer, customLabels, deliveryMethod, coffeeOrders[index])]
    {
      FlattenAfterChange(customer, customLabels, deliveryMethod, coffeeOrders, index, f, value);
      var newCoffeeOrders := coffeeOrders;
      newCoffeeOrders := newCoffeeOrders[index := WithField(newCoffeeOrders[index], f, value)];
      coffeeOrders := newCoffeeOrders;
    }

    /** `addCoffeeToOrder`: one default line is appended. */
    method AddLine()
      modifies this
      ensures coffeeOrders == old(coffeeOrders) + [DefaultLine]
      ensures customer == old(customer) && customLabels == old(customLabels)
      ensures deliveryMethod == old(deliveryMethod)
      ensures Records() == old(Records()) + [Record(customer, customLabels, deliveryMethod, DefaultLine)]
    {
      FlattenAfterAdd(customer, customLabels, deliveryMethod, coffeeOrders);
      coffeeOrders := coffeeOrders + [DefaultLine];
    }

    /** `removeCoffeeFromOrder`: line `index` is dropped; removing any line
        but the first (the only ones the form offers) keeps the first line,
        so an order never runs out of lines. */
    method RemoveLine(index: int)
      modifies this
      ensures coffeeOrders == Without(old(coffeeOrders), index)
      ensures 0 <= index < old(|coffeeOrders|) ==>
                coffeeOrders == old(coffeeOrders[..index] + coffeeOrders[index + 1..])
      ensures 0 < index && old(coffeeOrders) != [] ==>
                coffeeOrders != [] && coffeeOrders[0] == old(coffeeOrders[0])
      ensures customer == old(customer) && customLabels == old(customLabels)
      ensures deliveryMethod == old(deliveryMethod)
      ensures Records() == Without(old(Records()), index)
    {
      FlattenAfterRemove(customer, customLabels, deliveryMethod, coffeeOrders, index);
      if 0 <= index < |coffeeOrders| {
        WithoutInRange(coffeeOrders, index);
      } else {
        WithoutOutOfRange(coffeeOrders, index);
      }
      coffeeOrders := Without(coffeeOrders, index);
    }

    /** `handleSubmit`: the flattened records are posted; unless the post
        throws, the form is reset to its initial draft, otherwise the draft
        is kept for another try. */
    method Submit(sendDidNotThrow: bool) returns (sent: seq<OrderRecord>)
      modifies this
      ensures sent == old(Records())
      ensures sendDidNotThrow ==> IsInitial()
      ensures !sendDidNotThrow ==>
                customer == old(customer) && customLabels == old(customLabels) &&
                deliveryMethod == old(deliveryMethod) && coffeeOrders == old(coffeeOrders)
    {
      sent := Records();
      if sendDidNotThrow {
        customer, customLabels, deliveryMethod := "", false, "";
        coffeeOrders := [DefaultLine];
      }
    }
  }
}
