/**
 `Codec` of kafka/src/main/java/com/example/springsourcecode/SpringSourceCodeApplication.java:
 a stack-based preorder printer and a recursive reader for binary trees of 32-bit ints.
 */
module TreeCodec {

  datatype Tree = Null | Node(val: int, left: Tree, right: Tree)

  type Inner = t: Tree | t.Node? witness Node(0, Null, Null)

  datatype Result<T> = Ok(value: T) | NumberFormatException

  const MIN_INT: int := -0x8000_0000
  const MAX_INT: int := 0x7fff_ffff

  predicate InRange(t: Tree) {
    t.Node? ==> MIN_INT <= t.val <= MAX_INT && InRange(t.left) && InRange(t.right)
  }

  // ----- Decimal numbers -----

  function Digit(d: nat): char
    requires d < 10
  { ('0' as int + d) as char }

  predicate IsDigit(c: char) { '0' <= c <= '9' }

  function ShowNat(n: nat): (s: string)
    ensures |s| > 0 && forall i :: 0 <= i < |s| ==> IsDigit(s[i])
  { if n < 10 then [Digit(n)] else ShowNat(n / 10) + [Digit(n % 10)] }

  /** `String.valueOf(int)`. */
  function Show(v: int): string { if v < 0 then "-" + ShowNat(-v) else ShowNat(v) }

  function DigitsValue(s: string): nat
    requires forall i :: 0 <= i < |s| ==> IsDigit(s[i])
  {
    if s == [] then 0
    else
      assert IsDigit(s[|s| - 1]);
      10 * DigitsValue(s[..|s| - 1]) + (s[|s| - 1] as int - '0' as int)
  }

  predicate AllDigits(s: string) { forall i :: 0 <= i < |s| ==> IsDigit(s[i]) }

  /** At least one digit, and in range. */
  function ParseDigits(negative: bool, digits: string): Result<int> {
    if digits == [] || !AllDigits(digits) then NumberFormatException
    else
      var v: int := if negative then 0 - DigitsValue(digits) else DigitsValue(digits);
      if MIN_INT <= v <= MAX_INT then Ok(v) else NumberFormatException
  }

  /** `Integer.parseInt`: optional sign, then digits. */
  function ParseInt(s: string): Result<int> {
    if s != [] && s[0] == '-' then ParseDigits(true, s[1..])
    else if s != [] && s[0] == '+' then ParseDigits(false, s[1..])
    else ParseDigits(false, s)
  }

  lemma {:induction false} DigitsRoundTrip(n: nat)
    ensures DigitsValue(ShowNat(n)) == n && (n > 0 ==> ShowNat(n)[0] != '0')
  {
    if n < 10 {
      assert [Digit(n)][..0] == [];
    } else {
      DigitsRoundTrip(n / 10);
      var s := ShowNat(n);
      assert s[..|s| - 1] == ShowNat(n / 10);
    }
  }

  /** The decimal form of an integer is parsed back, with or without a plus sign, exactly if it is an int. */
  lemma ParseShow(v: int)
    ensures ParseInt(Show(v)) == if MIN_INT <= v <= MAX_INT then Ok(v) else NumberFormatException
    ensures v >= 0 ==> ParseInt("+" + Show(v)) == ParseInt(Show(v))
  {
    var digits := ShowNat(if v < 0 then -v else v);
    DigitsRoundTrip(if v < 0 then -v else v);
    assert ("-" + digits)[1..] == digits && ("+" + digits)[1..] == digits;
    assert IsDigit(digits[0]);
  }

  // ----- Preorder with null markers -----

  function Preorder(t: Tree): seq<string> {
    match t
    case Null => ["null"]
    case Node(v, l, r) => [Show(v)] + Preorder(l) + Preorder(r)
  }

  /** What the printer still has to emit: the current subtree, then the right subtrees on the stack, top first. */
  ghost function Pending(cur: Tree, stack: seq<Inner>): seq<string>
    decreases |stack|
  {
    if stack == [] then Preorder(cur)
    else Preorder(cur) + Pending(stack[|stack| - 1].right, stack[..|stack| - 1])
  }

  function Size(t: Tree): nat { if t.Null? then 0 else 1 + Size(t.left) + Size(t.right) }

  ghost function Work(cur: Tree, stack: seq<Inner>): nat
    decreases |stack|
  {
    if stack == [] then Size(cur)
    else Size(cur) + 1 + Work(stack[|stack| - 1].right, stack[..|stack| - 1])
  }

  lemma PendingPush(cur: Tree, stack: seq<Inner>, top: Inner)
    ensures Pending(cur, stack + [top]) == Preorder(cur) + Pending(top.right, stack)
    ensures Work(cur, stack + [top]) == Size(cur) + 1 + Work(top.right, stack)
  {
    var s := stack + [top];
    assert s[|s| - 1] == top && s[..|s| - 1] == stack;
  }

  lemma StepLeft(cur: Tree, stack: seq<Inner>, elements: seq<string>)
    requires cur.Node?
    ensures elements + [Show(cur.val)] + Pending(cur.left, stack + [cur]) == elements + Pending(cur, stack)
    ensures Work(cur.left, stack + [cur]) == Work(cur, stack)
  {
  }

  /** The inner loop: emit a node, push it, go left. */
  method GoLeft(cur0: Tree, stack0: seq<Inner>, elements0: seq<string>)
    returns (stack: seq<Inner>, elements: seq<string>)
    requires cur0.Node? || stack0 != []
    ensures stack != []
    ensures elements + Pending(Null, stack) == elements0 + Pending(cur0, stack0)
    ensures Work(Null, stack) == Work(cur0, stack0)
  {
    var cur := cur0;
    stack, elements := stack0, elements0;
    while cur != Null
      invariant cur.Node? || stack != []
      invariant elements + Pending(cur, stack) == elements0 + Pending(cur0, stack0)
      invariant Work(cur, stack) == Work(cur0, stack0)
      decreases cur
    {
      StepLeft(cur, stack, elements);
      elements := elements + [Show(cur.val)];
      stack := stack + [cur];
      cur := cur.left;
    }
  }

  lemma Assoc3<T>(a: seq<T>, b: seq<T>, c: seq<T>)
    ensures a + (b + c) == a + b + c
  {
  }

  lemma PopTop(rest: seq<Inner>, top: Inner, elements: seq<string>, goal: seq<string>)
    requires elements + Pending(Null, rest + [top]) == goal
    ensures elements + ["null"] + Pending(top.right, rest) == goal
    ensures Work(top.right, rest) < Work(Null, rest + [top])
  {
    PendingPush(Null, rest, top);
    var p := Pending(top.right, rest);
    Assoc3(elements, ["null"], p);
  }

  /** The stack loop of `serialize`. */
  method Elements(root: Tree) returns (elements: seq<string>)
    ensures elements == Preorder(root)
  {
    var stack: seq<Inner>, cur := [], root;
    elements := [];
    while cur != Null || stack != []
      invariant elements + Pending(cur, stack) == Preorder(root)
      decreases Work(cur, stack)
    {
      stack, elements := GoLeft(cur, stack, elements);
      var rest, top := stack[..|stack| - 1], stack[|stack| - 1];
      assert stack == rest + [top];
      PopTop(rest, top, elements, Preorder(root));
      elements := elements + ["null"];
      stack := rest;
      cur := top.right;
    }
    elements := elements + ["null"];
  }

  /** `serialize`. */
  method Serialize(root: Tree) returns (data: string)
    ensures data == Join(Preorder(root))
  {
    var elements := Elements(root);
    PreorderIsPlain(root);
    data := JoinAll(elements);
  }

  // ----- Joining and splitting -----

  function Join(es: seq<string>): string {
    if es == [] then "" else if |es| == 1 then es[0] else Join(es[..|es| - 1]) + "," + es[|es| - 1]
  }

  /** Every emitted element is non-empty and free of commas. */
  predicate Plain(es: seq<string>) { forall i :: 0 <= i < |es| ==> es[i] != [] && ',' !in es[i] }

  lemma ShowIsPlain(v: int)
    ensures Show(v) != [] && ',' !in Show(v) && Show(v) != "null"
  {
    var s := Show(v);
    assert forall i :: 0 <= i < |s| ==> IsDigit(s[i]) || s[i] == '-';
    assert "null"[0] == 'n';
  }

  lemma {:induction false} PreorderIsPlain(t: Tree)
    ensures Plain(Preorder(t)) && Preorder(t) != []
  {
    match t
    case Null =>
    case Node(v, l, r) =>
      ShowIsPlain(v);
      PreorderIsPlain(l);
      PreorderIsPlain(r);
  }

  lemma {:induction false} JoinNonEmpty(es: seq<string>)
    requires Plain(es) && es != []
    ensures Join(es) != []
  {
  }

  /** The `StringBuilder` loop: a comma before every element but the first. */
  method JoinAll(elements: seq<string>) returns (sb: string)
    requires Plain(elements)
    ensures sb == Join(elements)
  {
    sb := "";
    for i := 0 to |elements|
      invariant sb == Join(elements[..i])
    {
      assert elements[..i + 1][..i] == elements[..i];
      if i > 0 { JoinNonEmpty(elements[..i]); }
      if |sb| != 0 { sb := sb + ","; }
      sb := sb + elements[i];
    }
    assert elements[..|elements|] == elements;
  }

  /** All fields between commas. */
  function Fields(s: string): seq<string>
    decreases |s|
  {
    if ',' !in s then [s]
    else
      var i := LastComma(s);
      Fields(s[..i]) + [s[i + 1..]]
  }

  function LastComma(s: string): (i: nat)
    requires ',' in s
    ensures i < |s| && s[i] == ',' && ',' !in s[i + 1..]
  {
    if s[|s| - 1] == ',' then |s| - 1
    else
      assert s == s[..|s| - 1] + [s[|s| - 1]];
      var i := LastComma(s[..|s| - 1]);
      assert s[i + 1..] == s[..|s| - 1][i + 1..] + [s[|s| - 1]];
      i
  }

  function DropTrailingEmpty(es: seq<string>): seq<string> {
    if es == [] || es[|es| - 1] != [] then es else DropTrailingEmpty(es[..|es| - 1])
  }

  /** `String.split(",")`: fields with trailing empty ones removed. */
  function Split(s: string): seq<string> { DropTrailingEmpty(Fields(s)) }

  lemma LastCommaIsHere(prefix: string, e: string, i: nat)
    requires ',' !in e && i < |prefix + "," + e|
    requires (prefix + "," + e)[i] == ',' && ',' !in (prefix + "," + e)[i + 1..]
    ensures i == |prefix|
  {
    var s := prefix + "," + e;
    forall j | i < j < |s| ensures s[j] != ',' { assert s[j] == s[i + 1..][j - i - 1]; }
    assert s[|prefix|] == ',';
    assert forall j :: |prefix| < j < |s| ==> s[j] == e[j - |prefix| - 1];
  }

  lemma FieldsAppend(prefix: string, e: string)
    requires ',' !in e
    ensures Fields(prefix + "," + e) == Fields(prefix) + [e]
  {
    var s := prefix + "," + e;
    assert s[|prefix|] == ',';
    var i := LastComma(s);
    LastCommaIsHere(prefix, e, i);
    assert s[..i] == prefix && s[i + 1..] == e;
  }

  lemma {:induction false} FieldsOfJoin(es: seq<string>)
    requires Plain(es) && es != []
    ensures Fields(Join(es)) == es
    decreases |es|
  {
    var n := |es| - 1;
    if n > 0 {
      FieldsOfJoin(es[..n]);
      FieldsAppend(Join(es[..n]), es[n]);
      assert es == es[..n] + [es[n]];
    } else {
      assert es == [es[0]];
    }
  }

  /** A trailing comma does not matter. */
  lemma SplitIgnoresTrailingComma(s: string)
    ensures Split(s + ",") == Split(s)
  {
    assert s + "," + "" == s + ",";
    FieldsAppend(s, "");
    assert (Fields(s) + [""])[..|Fields(s)|] == Fields(s);
  }

  // ----- Reading back -----

  /** `helper`: the subtree that starts at `index`, and the index after it. */
  function Helper(es: seq<string>, index: nat): (r: Result<(Tree, nat)>)
    requires index <= |es|
    ensures r.Ok? ==> index <= r.value.1 <= |es|
    decreases |es| - index
  {
    if index >= |es| then Ok((Null, index))
    else if es[index] == "null" then Ok((Null, index + 1))
    else match ParseInt(es[index])
         case NumberFormatException => NumberFormatException
         case Ok(v) =>
           match Helper(es, index + 1)
           case NumberFormatException => NumberFormatException
           case Ok((l, i1)) =>
             match Helper(es, i1)
             case NumberFormatException => NumberFormatException
             case Ok((r, i2)) => Ok((Node(v, l, r), i2))
  }

  /** `helper` as written: the index is a one-element array that the recursion advances. */
  method ReadSubtree(es: seq<string>, index: array<nat>) returns (r: Result<Tree>)
    requires index.Length == 1 && index[0] <= |es|
    modifies index
    ensures index[0] <= |es|
    ensures match Helper(es, old(index[0]))
            case NumberFormatException => r == NumberFormatException
            case Ok(p) => r == Ok(p.0) && index[0] == p.1
    decreases |es| - index[0]
  {
    if index[0] >= |es| { return Ok(Null); }
    if es[index[0]] == "null" {
      index[0] := index[0] + 1;
      return Ok(Null);
    }
    var v := ParseInt(es[index[0]]);
    if v == NumberFormatException { return NumberFormatException; }
    index[0] := index[0] + 1;
    var left := ReadSubtree(es, index);
    if left == NumberFormatException { return left; }
    var right := ReadSubtree(es, index);
    if right == NumberFormatException { return right; }
    r := Ok(Node(v.value, left.value, right.value));
  }

  /** What `deserialize` must return. */
  function Deserialized(data: string): Result<Tree> {
    if data == [] then Ok(Null)
    else match Helper(Split(data), 0)
         case NumberFormatException => NumberFormatException
         case Ok((t, _)) => Ok(t)
  }

  /** `deserialize`. */
  method Deserialize(data: string) returns (r: Result<Tree>)
    ensures r == Deserialized(data)
    ensures forall t :: InRange(t) && data == Join(Preorder(t)) ==> r == Ok(t)
  {
    forall t | InRange(t) && data == Join(Preorder(t)) ensures Deserialized(data) == Ok(t) { RoundTrip(t); }
    if data == [] { return Ok(Null); }
    var index := new nat[1](_ => 0);
    r := ReadSubtree(Split(data), index);
  }

  lemma Regroup<T>(before: seq<T>, x: T, l: seq<T>, r: seq<T>, after: seq<T>)
    ensures before + ([x] + l + r) + after == (before + [x]) + l + (r + after)
    ensures before + ([x] + l + r) + after == (before + [x] + l) + r + after
    ensures (before + ([x] + l + r) + after)[|before|] == x
  {
  }

  lemma HeadOfNode(v: int)
    requires MIN_INT <= v <= MAX_INT
    ensures Show(v) != "null" && ParseInt(Show(v)) == Ok(v)
  {
    ShowIsPlain(v);
    ParseShow(v);
  }

  lemma HelperNull(es: seq<string>, index: nat)
    requires index < |es| && es[index] == "null"
    ensures Helper(es, index) == Ok((Null, index + 1))
  {
  }

  lemma HelperNode(es: seq<string>, index: nat, t: Tree, i1: nat, i2: nat)
    requires t.Node? && index < |es| && i1 <= |es| && es[index] != "null" && ParseInt(es[index]) == Ok(t.val)
    requires Helper(es, index + 1) == Ok((t.left, i1)) && Helper(es, i1) == Ok((t.right, i2))
    ensures Helper(es, index) == Ok((t, i2))
  {
  }

  /** A tree printed anywhere in `es` is read back, and reading stops right behind it. */
  lemma {:induction false} HelperReads(es: seq<string>, before: seq<string>, t: Tree, after: seq<string>)
    requires InRange(t) && es == before + Preorder(t) + after
    ensures Helper(es, |before|) == Ok((t, |before + Preorder(t)|))
    decreases t
  {
    if t.Null? {
      HelperNull(es, |before|);
    } else {
      var x, l, r := Show(t.val), Preorder(t.left), Preorder(t.right);
      Regroup(before, x, l, r, after);
      HelperReads(es, before + [x], t.left, r + after);
      HelperReads(es, before + [x] + l, t.right, after);
      HeadOfNode(t.val);
      var i, i1, i2 := |before|, |before + [x] + l|, |before + [x] + l + r|;
      assert |before + [x]| == i + 1 && i2 == |before + Preorder(t)|;
      assert es[i] == x;
      HelperNode(es, i, t, i1, i2);
    }
  }

  /** Every tree of ints survives printing and reading. */
  lemma RoundTrip(t: Tree)
    requires InRange(t)
    ensures Deserialized(Join(Preorder(t))) == Ok(t)
  {
    var es := Preorder(t);
    PreorderIsPlain(t);
    FieldsOfJoin(es);
    JoinNonEmpty(es);
    assert DropTrailingEmpty(es) == es;
    assert es == [] + es + [];
    HelperReads(es, [], t, []);
  }

  // ----- Any input -----

  function Nulls(k: nat): seq<string> { if k == 0 then [] else ["null"] + Nulls(k - 1) }

  /** A number in its shortest form. */
  function Normal(e: string): string { if e != "null" && ParseInt(e).Ok? then Show(ParseInt(e).value) else e }

  function Map(f: string -> string, es: seq<string>): seq<string> {
    if es == [] then [] else [f(es[0])] + Map(f, es[1..])
  }

  function Normals(es: seq<string>): seq<string> { Map(Normal, es) }

  lemma {:induction false} MapConcat(f: string -> string, a: seq<string>, b: seq<string>)
    ensures Map(f, a + b) == Map(f, a) + Map(f, b)
  {
    if a == [] {
      assert a + b == b;
    } else {
      MapConcat(f, a[1..], b);
      assert (a + b)[1..] == a[1..] + b;
    }
  }

  lemma MapParts(f: string -> string, es: seq<string>, i: nat, i1: nat, j: nat)
    requires i < i1 <= j <= |es|
    ensures Map(f, es[i..j]) == [f(es[i])] + Map(f, es[i + 1..i1]) + Map(f, es[i1..j])
  {
    assert es[i..j] == [es[i]] + es[i + 1..i1] + es[i1..j];
    MapConcat(f, [es[i]] + es[i + 1..i1], es[i1..j]);
    MapConcat(f, [es[i]], es[i + 1..i1]);
    assert [es[i]][1..] == [];
  }

  lemma PadLast<T>(x: T, a: seq<T>, l: seq<T>, b: seq<T>, r: seq<T>)
    requires l == [] || b == []
    ensures [x] + (a + l) + (b + r) == [x] + a + b + (l + r)
  {
  }

  lemma {:induction false} MoreNulls(kl: nat, kr: nat)
    ensures Nulls(kl) + Nulls(kr) == Nulls(kl + kr)
  {
    if kl > 0 { MoreNulls(kl - 1, kr); }
  }

  lemma JoinNormals(es: seq<string>, i: nat, i1: nat, j: nat, kl: nat, kr: nat)
    requires i < i1 <= j <= |es| && (kl > 0 ==> i1 == |es|)
    ensures [Normal(es[i])] + (Normals(es[i + 1..i1]) + Nulls(kl)) + (Normals(es[i1..j]) + Nulls(kr))
            == Normals(es[i..j]) + Nulls(kl + kr)
  {
    MapParts(Normal, es, i, i1, j);
    MoreNulls(kl, kr);
    assert kl > 0 ==> es[i1..j] == [];
    PadLast(Normal(es[i]), Normals(es[i + 1..i1]), Nulls(kl), Normals(es[i1..j]), Nulls(kr));
  }

  /** An empty subtree was read from the element `null` or from a missing one. */
  lemma EmptyRead(es: seq<string>, i: nat, j: nat) returns (missing: nat)
    requires i <= |es| && Helper(es, i) == Ok((Null, j))
    ensures i <= j <= |es| && Preorder(Null) == Normals(es[i..j]) + Nulls(missing)
    ensures missing > 0 ==> j == |es|
  {
    if i == |es| {
      missing := 1;
      assert es[i..j] == [] && Nulls(1) == ["null"] + Nulls(0);
    } else {
      missing := 0;
      assert es[i..j] == ["null"] && ["null"][1..] == [];
    }
  }

  /** A node was read from an int and two subtrees. */
  lemma NodeRead(es: seq<string>, i: nat, t: Tree, j: nat) returns (i1: nat)
    requires i <= |es| && t.Node? && Helper(es, i) == Ok((t, j))
    ensures i < i1 <= j <= |es| && Normal(es[i]) == Show(t.val) && MIN_INT <= t.val <= MAX_INT
    ensures Helper(es, i + 1) == Ok((t.left, i1)) && Helper(es, i1) == Ok((t.right, j))
  {
    i1 := Helper(es, i + 1).value.1;
  }

  lemma NodePrints(t: Tree, all: seq<string>, x: string, l: seq<string>, r: seq<string>)
    requires t.Node? && Show(t.val) == x && Preorder(t.left) == l && Preorder(t.right) == r && [x] + l + r == all
    ensures Preorder(t) == all
  {
  }

  /**
   Whatever is read from any elements, missing ones count as `null`: printed again, the tree gives the elements that
   were read, with numbers in their shortest form, and nulls for those that were missing.
   */
  lemma {:induction false} HelperInverts(es: seq<string>, i: nat, t: Tree, j: nat) returns (missing: nat)
    requires i <= |es| && Helper(es, i) == Ok((t, j))
    ensures i <= j <= |es| && Preorder(t) == Normals(es[i..j]) + Nulls(missing) && InRange(t)
    ensures missing > 0 ==> j == |es|
    decreases t
  {
    if t.Null? {
      missing := EmptyRead(es, i, j);
    } else {
      var i1 := NodeRead(es, i, t, j);
      var kl := HelperInverts(es, i + 1, t.left, i1);
      var kr := HelperInverts(es, i1, t.right, j);
      missing := kl + kr;
      JoinNormals(es, i, i1, j, kl, kr);
      NodePrints(t, Normals(es[i..j]) + Nulls(missing), Show(t.val), Normals(es[i + 1..i1]) + Nulls(kl),
                 Normals(es[i1..j]) + Nulls(kr));
    }
  }

  /** Reading fails only on an element that is neither `null` nor an int. */
  lemma {:induction false} HelperFails(es: seq<string>, i: nat) returns (p: nat)
    requires i <= |es| && Helper(es, i) == NumberFormatException
    ensures i <= p < |es| && es[p] != "null" && ParseInt(es[p]) == NumberFormatException
    decreases |es| - i
  {
    if ParseInt(es[i]) == NumberFormatException { return i; }
    match Helper(es, i + 1)
    case NumberFormatException => p := HelperFails(es, i + 1);
    case Ok((_, i1)) => p := HelperFails(es, i1);
  }

  /** The elements printed for the tree of the program's `main`. */
  lemma MainPrints()
    ensures Preorder(Node(0, Node(1, Node(3, Null, Null), Null), Node(2, Null, Null)))
            == ["0", "1", "3", "null", "null", "null", "2", "null", "null"]
  {
    assert Show(0) == "0" && Show(1) == "1" && Show(2) == "2" && Show(3) == "3";
  }
}
