/**
 * The primitive kinds of Jet and their display names.  The names are kept
 * in one string and cut out of it with a table of offsets, the way Go's
 * `stringer` tool lays them out.
 */
module PrimitiveKinds {
  import opened Decimal

  /** A primitive kind.  Go declares it as an unsigned integer type. */
  type Kind = nat

  const UnknownPrimitive: Kind := 0
  const UntypedBool: Kind := 1
  const UntypedInt: Kind := 2
  const UntypedFloat: Kind := 3
  const UntypedString: Kind := 4
  const Bool: Kind := 5
  const I32: Kind := 6
  const Any: Kind := 7
  const AnyTypeDesc: Kind := 8

  /** The nine names back to back, split here at the offsets of `KindIndex`. */
  const KindNames: string := "UnknownPrimitive" + "untyped bool" + "untyped int" + "untyped float"
    + "untyped string" + "bool" + "i32" + "any" + "typedesc"

  const KindIndex: seq<nat> := [0, 16, 28, 39, 52, 66, 70, 73, 76, 84]

  /** `PrimitiveKind.String`: a slice of the name string, or a numbered fallback. */
  function KindString(k: Kind): string
  {
    if k >= |KindIndex| - 1 then
      "PrimitiveKind(" + IntToString(k) + ")"
    else
      KindNames[KindIndex[k]..KindIndex[k + 1]]
  }

  lemma OffsetTableShape()
    ensures |KindIndex| == 10 && KindIndex[0] == 0 && KindIndex[9] == |KindNames| == 84
    ensures forall i, j :: 0 <= i < j < |KindIndex| ==> KindIndex[i] < KindIndex[j]
  {
  }

  lemma KindNamesSpelled()
    ensures KindString(UnknownPrimitive) == "UnknownPrimitive"
    ensures KindString(UntypedBool) == "untyped bool"
    ensures KindString(UntypedInt) == "untyped int"
    ensures KindString(UntypedFloat) == "untyped float"
    ensures KindString(UntypedString) == "untyped string"
    ensures KindString(Bool) == "bool"
    ensures KindString(I32) == "i32"
    ensures KindString(Any) == "any"
    ensures KindString(AnyTypeDesc) == "typedesc"
  {
  }

  lemma KindStringOutOfRange(k: Kind)
    requires k >= 9
    ensures KindString(k) == "PrimitiveKind(" + IntToString(k) + ")"
  {
  }

  /** Distinct kinds, declared or not, never share a name. */
  lemma KindStringInjective(a: Kind, b: Kind)
    ensures KindString(a) == KindString(b) ==> a == b
  {
    if KindString(a) == KindString(b) {
      if a >= 9 && b >= 9 {
        var sa, sb := KindString(a), KindString(b);
        assert sa[14..|sa| - 1] == IntToString(a);
        assert sb[14..|sb| - 1] == IntToString(b);
        IntToStringInjective(a, b);
      } else if a >= 9 {
        NumberedNameDiffers(a, b);
      } else if b >= 9 {
        NumberedNameDiffers(b, a);
      } else if a != b {
        DeclaredNamesDiffer(a, b);
      }
    }
  }

  /** The nine declared names are pairwise different: only `i32` and `any` share a length. */
  lemma DeclaredNamesDiffer(a: Kind, b: Kind)
    requires a < 9 && b < 9 && a != b
    ensures KindString(a) != KindString(b)
  {
    assert |KindString(a)| == KindIndex[a + 1] - KindIndex[a];
    assert |KindString(b)| == KindIndex[b + 1] - KindIndex[b];
    if a in {I32, Any} && b in {I32, Any} {
      KindNamesSpelled();
      assert KindString(a)[0] != KindString(b)[0];
    }
  }

  lemma NumberedNameDiffers(big: Kind, small: Kind)
    requires big >= 9 > small
    ensures KindString(big) != KindString(small)
  {
    KindNamesSpelled();
    assert KindString(big)[0] == 'P';
    assert KindString(small)[0] != 'P' by {
      assert small in {0, 1, 2, 3, 4, 5, 6, 7, 8};
    }
  }
}
