/**
 * Comparison of two lists of attributes paired with their types (`EAV.compare`): the lists
 * are walked together; the first position where they differ decides, by type id in
 * descending order and then, for integer attributes, by value in descending order; a list
 * that runs out first is the greater one (compares as 1 when it is the first list).
 */
module EAV {
  import opened Basics

  /** The attribute datatype code of integer attributes, the only kind `compare` can order. */
  const IntegerDatatype := 1

  /** `AttributeTypeBase`: the type id, the datatype code and the optional default integer `def_int`. */
  datatype AttributeType = AttributeType(id: int32, dataType: int32, defInt: Option<int32>)

  /** `AttributeBase`, as far as `compare` reads it: `getInteger()`, possibly null. */
  datatype Attribute = Attribute(integer: Option<int32>)

  /** `AttributeAndType`: a type and an attribute of it; either reference may be null. */
  datatype AttributeAndType = AttributeAndType(attributeType: Option<AttributeType>, attribute: Option<Attribute>)

  /** How `compare` ends: a result of -1, 0 or 1, or one of the two exceptions it can raise. */
  datatype Comparison =
    | Compared(result: int)
    | NullAttributeType      // NullPointerException: an attribute type is null
    | UnsupportedDatatype    // UnsupportedOperationException: not an integer datatype

  /**
   * The arithmetic the differences are taken in: Java's 32-bit `int`, as the source does, or
   * exact integers, as a comparison that cannot overflow would.
   */
  datatype Arithmetic = JavaInt | Exact

  function Difference(x: int, arith: Arithmetic): int {
    if arith == JavaInt then Wrap32(x) else x
  }

  /** The integer compared for one side: the attribute's value, else the type's default, else 0. */
  function IntegerValue(ant: AttributeAndType): int32
    requires ant.attributeType.Some?
  {
    if ant.attribute.Some? && ant.attribute.value.integer.Some? then ant.attribute.value.integer.value
    else if ant.attributeType.value.defInt.Some? then ant.attributeType.value.defInt.value
    else 0
  }

  /** What one position of the two lists decides: the final outcome, or nothing (go on). */
  datatype Step = Decided(outcome: Comparison) | Tied

  /** One round of the loop when both cursors hold an entry. */
  function StepAt(ant1: AttributeAndType, ant2: AttributeAndType, arith: Arithmetic): Step {
    if ant1.attributeType.None? || ant2.attributeType.None? then Decided(NullAttributeType)
    else
      var res := Difference(ant2.attributeType.value.id - ant1.attributeType.value.id, arith);
      if res != 0 then Decided(Compared(if res < 0 then -1 else 1))
      else if ant1.attributeType.value.dataType != IntegerDatatype then Decided(UnsupportedDatatype)
      else
        var res' := Difference(IntegerValue(ant2) - IntegerValue(ant1), arith);
        if res' != 0 then Decided(Compared(if res' < 0 then -1 else 1)) else Tied
  }

  /** The outcome of comparing the lists from position `i` on. */
  function CompareFrom(antList1: seq<AttributeAndType>, antList2: seq<AttributeAndType>, i: nat, arith: Arithmetic)
    : (c: Comparison)
    ensures c.Compared? ==> c.result == -1 || c.result == 0 || c.result == 1
    decreases |antList1| - i
  {
    if i >= |antList1| then Compared(if i >= |antList2| then 0 else 1)
    else if i >= |antList2| then Compared(-1)
    else match StepAt(antList1[i], antList2[i], arith)
      case Decided(c) => c
      case Tied => CompareFrom(antList1, antList2, i + 1, arith)
  }

  /** `compare` as the source computes it, with 32-bit differences. */
  function CompareAsWritten(antList1: seq<AttributeAndType>, antList2: seq<AttributeAndType>): (c: Comparison)
    ensures c.Compared? ==> c.result == -1 || c.result == 0 || c.result == 1
    ensures antList1 == [] && antList2 == [] ==> c == Compared(0)
  {
    CompareFrom(antList1, antList2, 0, JavaInt)
  }

  /** `compare` with exact differences: the ordering the source evidently means. */
  function CompareExact(antList1: seq<AttributeAndType>, antList2: seq<AttributeAndType>): (c: Comparison)
    ensures c.Compared? ==> c.result == -1 || c.result == 0 || c.result == 1
    ensures antList1 == [] && antList2 == [] ==> c == Compared(0)
  {
    CompareFrom(antList1, antList2, 0, Exact)
  }

  /** `compare`: two cursors advanced together, with the early returns of the source. */
  method Compare(antList1: seq<AttributeAndType>, antList2: seq<AttributeAndType>) returns (res: Comparison)
    ensures res == CompareAsWritten(antList1, antList2)
    ensures res.Compared? ==> res.result == -1 || res.result == 0 || res.result == 1
  {
    var idx1, idx2 := 0, 0;
    if |antList1| > 0 || |antList2| > 0 {
      var ant1: Option<AttributeAndType>;
      var ant2: Option<AttributeAndType>;
      if idx1 < |antList1| {
        ant1 := Some(antList1[idx1]);
        idx1 := idx1 + 1;
      } else {
        ant1 := None;
      }
      if idx2 < |antList2| {
        ant2 := Some(antList2[idx2]);
        idx2 := idx2 + 1;
      } else {
        ant2 := None;
      }
      ghost var position := 0;
      var bLoop := true;
      while bLoop
        invariant position <= |antList1| || position <= |antList2|
        invariant ant1 == if position < |antList1| then Some(antList1[position]) else None
        invariant ant2 == if position < |antList2| then Some(antList2[position]) else None
        invariant idx1 == if position < |antList1| then position + 1 else |antList1|
        invariant idx2 == if position < |antList2| then position + 1 else |antList2|
        invariant bLoop ==> CompareAsWritten(antList1, antList2) == CompareFrom(antList1, antList2, position, JavaInt)
        invariant !bLoop ==> CompareAsWritten(antList1, antList2) == Compared(0)
        decreases bLoop, |antList1| + |antList2| - position
      {
        if ant1.Some? {
          if ant2.Some? {
            var a1, a2 := ant1.value, ant2.value;
            if a1.attributeType.None? || a2.attributeType.None? {
              return NullAttributeType;
            }
            var r := Wrap32(a2.attributeType.value.id - a1.attributeType.value.id);
            if r != 0 {
              return Compared(if r < 0 then -1 else 1);
            }
            if a1.attributeType.value.dataType == IntegerDatatype {
              var i1: Option<int32> := None;
              var i2: Option<int32> := None;
              if a1.attribute.Some? {
                i1 := a1.attribute.value.integer;
              }
              if i1.None? {
                i1 := a1.attributeType.value.defInt;
              }
              if i1.None? {
                i1 := Some(0);
              }
              if a2.attribute.Some? {
                i2 := a2.attribute.value.integer;
              }
              if i2.None? {
                i2 := a2.attributeType.value.defInt;
              }
              if i2.None? {
                i2 := Some(0);
              }
              assert i1.value == IntegerValue(a1) && i2.value == IntegerValue(a2);
              r := Wrap32(i2.value - i1.value);
              if r != 0 {
                return Compared(if r < 0 then -1 else 1);
              }
            } else {
              return UnsupportedDatatype;
            }
            if idx1 < |antList1| {
              ant1 := Some(antList1[idx1]);
              idx1 := idx1 + 1;
            } else {
              ant1 := None;
            }
            if idx2 < |antList2| {
              ant2 := Some(antList2[idx2]);
              idx2 := idx2 + 1;
            } else {
              ant2 := None;
            }
            position := position + 1;
          } else {
            return Compared(-1);
          }
        } else {
          if ant2.Some? {
            return Compared(1);
          } else {
            bLoop := false;
          }
        }
      }
    }
    return Compared(0);
  }

  /** All positions before `i` are ties. */
  ghost predicate TiedBefore(antList1: seq<AttributeAndType>, antList2: seq<AttributeAndType>, i: nat, arith: Arithmetic)
    requires i <= |antList1| && i <= |antList2|
  {
    forall j :: 0 <= j < i ==> StepAt(antList1[j], antList2[j], arith) == Tied
  }

  lemma {:induction false} SkipTies(antList1: seq<AttributeAndType>, antList2: seq<AttributeAndType>, i: nat, arith: Arithmetic)
    requires i <= |antList1| && i <= |antList2| && TiedBefore(antList1, antList2, i, arith)
    ensures CompareFrom(antList1, antList2, 0, arith) == CompareFrom(antList1, antList2, i, arith)
  {
    if i > 0 {
      SkipTies(antList1, antList2, i - 1, arith);
    }
  }

  /**
   * The first position that is not a tie decides: two lists that tie throughout compare as 0,
   * a first list with entries left over as -1, a second list with entries left over as 1, and
   * otherwise the outcome of that position.
   */
  lemma FirstDifferenceDecides(antList1: seq<AttributeAndType>, antList2: seq<AttributeAndType>, i: nat, arith: Arithmetic)
    requires i <= |antList1| && i <= |antList2| && TiedBefore(antList1, antList2, i, arith)
    ensures i == |antList1| && i == |antList2| ==> CompareFrom(antList1, antList2, 0, arith) == Compared(0)
    ensures i == |antList2| < |antList1| ==> CompareFrom(antList1, antList2, 0, arith) == Compared(-1)
    ensures i == |antList1| < |antList2| ==> CompareFrom(antList1, antList2, 0, arith) == Compared(1)
    ensures i < |antList1| && i < |antList2| && StepAt(antList1[i], antList2[i], arith).Decided? ==>
              CompareFrom(antList1, antList2, 0, arith) == StepAt(antList1[i], antList2[i], arith).outcome
  {
    SkipTies(antList1, antList2, i, arith);
  }

  /**
   * What one position decides with exact differences: a null type throws; a greater type id in
   * the first list gives -1 and a smaller one 1; at equal ids a non-integer datatype of the first
   * entry throws; otherwise a greater value in the first list gives -1, a smaller one 1, and
   * equal values are a tie.
   */
  lemma ExactStep(ant1: AttributeAndType, ant2: AttributeAndType)
    ensures ant1.attributeType.None? || ant2.attributeType.None? ==> StepAt(ant1, ant2, Exact) == Decided(NullAttributeType)
    ensures ant1.attributeType.Some? && ant2.attributeType.Some? ==>
      var t1, t2 := ant1.attributeType.value, ant2.attributeType.value;
      && (t1.id > t2.id ==> StepAt(ant1, ant2, Exact) == Decided(Compared(-1)))
      && (t1.id < t2.id ==> StepAt(ant1, ant2, Exact) == Decided(Compared(1)))
      && (t1.id == t2.id && t1.dataType != IntegerDatatype ==> StepAt(ant1, ant2, Exact) == Decided(UnsupportedDatatype))
      && (t1.id == t2.id && t1.dataType == IntegerDatatype ==>
            && (IntegerValue(ant1) > IntegerValue(ant2) ==> StepAt(ant1, ant2, Exact) == Decided(Compared(-1)))
            && (IntegerValue(ant1) < IntegerValue(ant2) ==> StepAt(ant1, ant2, Exact) == Decided(Compared(1)))
            && (IntegerValue(ant1) == IntegerValue(ant2) ==> StepAt(ant1, ant2, Exact) == Tied))
  {
  }

  /** Whether the two differences the source takes at one position fit in 32 bits. */
  predicate NoOverflowAt(ant1: AttributeAndType, ant2: AttributeAndType) {
    ant1.attributeType.Some? && ant2.attributeType.Some? ==>
      && -0x8000_0000 <= ant2.attributeType.value.id - ant1.attributeType.value.id < 0x8000_0000
      && -0x8000_0000 <= IntegerValue(ant2) - IntegerValue(ant1) < 0x8000_0000
  }

  predicate NoOverflow(antList1: seq<AttributeAndType>, antList2: seq<AttributeAndType>) {
    forall j :: 0 <= j < |antList1| && j < |antList2| ==> NoOverflowAt(antList1[j], antList2[j])
  }

  /** Without overflow, the source's 32-bit comparison is the exact one. */
  lemma {:induction false} AsWrittenIsExactWithoutOverflow(antList1: seq<AttributeAndType>, antList2: seq<AttributeAndType>,
                                                           i: nat)
    requires NoOverflow(antList1, antList2)
    ensures CompareFrom(antList1, antList2, i, JavaInt) == CompareFrom(antList1, antList2, i, Exact)
    decreases |antList1| - i
  {
    if i < |antList1| && i < |antList2| {
      assert NoOverflowAt(antList1[i], antList2[i]);
      assert StepAt(antList1[i], antList2[i], JavaInt) == StepAt(antList1[i], antList2[i], Exact);
      AsWrittenIsExactWithoutOverflow(antList1, antList2, i + 1);
    }
  }

  /** An entry `compare` can order against itself: its type is present and of integer datatype. */
  predicate IsIntegerEntry(ant: AttributeAndType) {
    ant.attributeType.Some? && ant.attributeType.value.dataType == IntegerDatatype
  }

  /** A list of integer entries compares as 0 with itself, in either arithmetic. */
  lemma {:induction false} CompareReflexive(antList: seq<AttributeAndType>, i: nat, arith: Arithmetic)
    requires forall j :: 0 <= j < |antList| ==> IsIntegerEntry(antList[j])
    ensures CompareFrom(antList, antList, i, arith) == Compared(0)
    decreases |antList| - i
  {
    if i < |antList| {
      assert IsIntegerEntry(antList[i]);
      assert StepAt(antList[i], antList[i], arith) == Tied;
      CompareReflexive(antList, i + 1, arith);
    }
  }

  /** With exact differences, swapping the lists negates the result whenever neither call throws. */
  lemma {:induction false} CompareExactAntisymmetric(antList1: seq<AttributeAndType>, antList2: seq<AttributeAndType>,
                                                     i: nat)
    requires CompareFrom(antList1, antList2, i, Exact).Compared?
    requires CompareFrom(antList2, antList1, i, Exact).Compared?
    ensures CompareFrom(antList1, antList2, i, Exact).result == -CompareFrom(antList2, antList1, i, Exact).result
    decreases |antList1| - i
  {
    if i < |antList1| && i < |antList2| {
      var s12 := StepAt(antList1[i], antList2[i], Exact);
      var s21 := StepAt(antList2[i], antList1[i], Exact);
      ExactStep(antList1[i], antList2[i]);
      ExactStep(antList2[i], antList1[i]);
      if s12 == Tied {
        CompareExactAntisymmetric(antList1, antList2, i + 1);
      }
    }
  }

  /** Without overflow either way, the source's comparison is antisymmetric too. */
  lemma AsWrittenAntisymmetricWithoutOverflow(antList1: seq<AttributeAndType>, antList2: seq<AttributeAndType>)
    requires NoOverflow(antList1, antList2) && NoOverflow(antList2, antList1)
    requires CompareAsWritten(antList1, antList2).Compared? && CompareAsWritten(antList2, antList1).Compared?
    ensures CompareAsWritten(antList1, antList2).result == -CompareAsWritten(antList2, antList1).result
  {
    AsWrittenIsExactWithoutOverflow(antList1, antList2, 0);
    AsWrittenIsExactWithoutOverflow(antList2, antList1, 0);
    CompareExactAntisymmetric(antList1, antList2, 0);
  }

  /** A one-entry list holding an integer attribute of a fixed type. */
  function IntegerEntry(value: int32): seq<AttributeAndType> {
    [AttributeAndType(Some(AttributeType(7, IntegerDatatype, None)), Some(Attribute(Some(value))))]
  }

  /**
   * The 32-bit difference breaks the comparator contract: the values 0 and Integer.MIN_VALUE
   * each compare as the greater one (-1) against the other, while the exact comparison puts
   * 0 first, as it should.
   */
  lemma OverflowBreaksAntisymmetry()
    ensures CompareAsWritten(IntegerEntry(0), IntegerEntry(-0x8000_0000)) == Compared(-1)
    ensures CompareAsWritten(IntegerEntry(-0x8000_0000), IntegerEntry(0)) == Compared(-1)
    ensures CompareExact(IntegerEntry(0), IntegerEntry(-0x8000_0000)) == Compared(-1)
    ensures CompareExact(IntegerEntry(-0x8000_0000), IntegerEntry(0)) == Compared(1)
  {
  }
}
