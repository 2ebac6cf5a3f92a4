/** The test-matrix generator: nested recursion over value lists, in either of two
    visiting orders, emitting the lines the checker accepts. */
module TestGen {
  import opened Wrappers

  type Part = string
  type Parts = seq<Part>

  datatype Order = Descending | Ascend

  /** One emitted case: "#name-number" and the line below it. */
  datatype Case = Case(name: string, number: nat, line: string)

  // ---------------------------------------------------------------- selections

  function Prepend(p: Part, tails: seq<Parts>): (r: seq<Parts>)
    ensures |r| == |tails|
    ensures forall j :: 0 <= j < |tails| ==> r[j] == [p] + tails[j]
  {
    seq(|tails|, j requires 0 <= j < |tails| => [p] + tails[j])
  }

  /** The choices a loop over the first `i` values of the first list makes. */
  function ChosenUpTo(lists: seq<Parts>, i: nat): seq<Parts>
    requires lists != [] && i <= |lists[0]|
    decreases |lists|, 1, i
  {
    if i == 0 then []
    else ChosenUpTo(lists, i - 1) + Prepend(lists[0][i - 1], Chosen(lists[1..]))
  }

  /** All choices of one value per list, in the order nested loops make them. */
  function Chosen(lists: seq<Parts>): seq<Parts>
    decreases |lists|, 2
  {
    if lists == [] then [[]] else ChosenUpTo(lists, |lists[0]|)
  }

  function Product(lists: seq<Parts>): nat {
    if lists == [] then 1 else |lists[0]| * Product(lists[1..])
  }

  // ---------------------------------------------------------------- mixed radix

  /** One digit per list, each below the length of its list. */
  ghost predicate AreDigits(lists: seq<Parts>, digits: seq<nat>) {
    && |digits| == |lists|
    && forall i :: 0 <= i < |lists| ==> digits[i] < |lists[i]|
  }

  /** The number the digits write, the last list being the units. */
  function Value(lists: seq<Parts>, digits: seq<nat>): nat
    requires |digits| == |lists|
  {
    if lists == [] then 0 else digits[0] * Product(lists[1..]) + Value(lists[1..], digits[1..])
  }

  function Digits(lists: seq<Parts>, j: nat): seq<nat>
    requires j < Product(lists)
    decreases |lists|
  {
    if lists == [] then []
    else
      var w := Product(lists[1..]);
      DivMod(j, w, |lists[0]|);
      [j / w] + Digits(lists[1..], j % w)
  }

  function Pick(lists: seq<Parts>, digits: seq<nat>): (r: Parts)
    requires AreDigits(lists, digits)
    ensures |r| == |lists|
    ensures forall i :: 0 <= i < |lists| ==> r[i] == lists[i][digits[i]]
  {
    seq(|lists|, i requires 0 <= i < |lists| => lists[i][digits[i]])
  }

  lemma DivMod(j: nat, w: nat, n: nat)
    requires j < n * w
    ensures w > 0 && j / w < n && j % w < w && j == (j / w) * w + j % w
  {
    assert w == 0 ==> n * w == 0;
    var q := j / w;
    assert q >= n ==> q * w >= n * w;
  }

  lemma Apart(a: nat, b: nat, u: nat)
    ensures a < b ==> a * u + u <= b * u
  {
    assert (a + 1) * u == a * u + u;
    assert a < b ==> (a + 1) * u <= b * u;
  }

  lemma DivUnique(x: nat, q: nat, e: nat, u: nat)
    requires u > 0 && x == q * u + e && e < u
    ensures x / u == q && x % u == e
  {
    var p := x / u;
    var f := x % u;
    assert p * u + f == q * u + e;
    Apart(p, q, u);
    Apart(q, p, u);
  }

  lemma Within(a: nat, b: nat, w: nat, n: nat)
    requires a < n && b < w
    ensures 0 <= a * w && a * w + b < n * w
  {
    assert (a + 1) * w <= n * w;
    assert (a + 1) * w == a * w + w;
  }

  /** Digits and numbers below the product correspond one to one. */
  lemma {:induction false} DigitsRoundTrip(lists: seq<Parts>, digits: seq<nat>)
    requires AreDigits(lists, digits)
    ensures Value(lists, digits) < Product(lists)
    ensures Digits(lists, Value(lists, digits)) == digits
  {
    if lists != [] {
      var w, v := Product(lists[1..]), Value(lists[1..], digits[1..]);
      DigitsRoundTrip(lists[1..], digits[1..]);
      Within(digits[0], v, w, |lists[0]|);
      DivUnique(Value(lists, digits), digits[0], v, w);
    }
  }

  lemma {:induction false} DigitsAreDigits(lists: seq<Parts>, j: nat)
    requires j < Product(lists)
    ensures AreDigits(lists, Digits(lists, j))
    ensures Value(lists, Digits(lists, j)) == j
    decreases |lists|
  {
    if lists != [] {
      var w := Product(lists[1..]);
      DivMod(j, w, |lists[0]|);
      DigitsAreDigits(lists[1..], j % w);
      var d := Digits(lists, j);
      assert d[1..] == Digits(lists[1..], j % w);
      forall i | 0 <= i < |lists|
        ensures d[i] < |lists[i]|
      {
        if i > 0 {
          assert d[1..][i - 1] < |lists[1..][i - 1]|;
        }
      }
    }
  }

  lemma {:induction false} ChosenUpToLength(lists: seq<Parts>, i: nat)
    requires lists != [] && i <= |lists[0]|
    ensures |Chosen(lists[1..])| == Product(lists[1..])
    ensures |ChosenUpTo(lists, i)| == i * Product(lists[1..])
    decreases |lists|, 1, i
  {
    ChosenLength(lists[1..]);
    if i > 0 {
      ChosenUpToLength(lists, i - 1);
      var w := Product(lists[1..]);
      assert (i - 1) * w + w == i * w;
    }
  }

  lemma {:induction false} ChosenLength(lists: seq<Parts>)
    ensures |Chosen(lists)| == Product(lists)
    decreases |lists|, 2
  {
    if lists != [] {
      ChosenUpToLength(lists, |lists[0]|);
    }
  }

  lemma {:induction false} ChosenBlock(lists: seq<Parts>, i: nat, a: nat, b: nat)
    requires lists != [] && a < i <= |lists[0]| && b < Product(lists[1..])
    ensures a * Product(lists[1..]) + b < |ChosenUpTo(lists, i)| && b < |Chosen(lists[1..])|
    ensures ChosenUpTo(lists, i)[a * Product(lists[1..]) + b] == [lists[0][a]] + Chosen(lists[1..])[b]
    decreases i
  {
    var w := Product(lists[1..]);
    ChosenUpToLength(lists, i);
    ChosenUpToLength(lists, i - 1);
    Within(a, b, w, i);
    if a < i - 1 {
      ChosenBlock(lists, i - 1, a, b);
    } else {
      assert a * w + b - |ChosenUpTo(lists, i - 1)| == b;
    }
  }

  lemma PickFirst(lists: seq<Parts>, digits: seq<nat>)
    requires AreDigits(lists, digits) && lists != []
    ensures AreDigits(lists[1..], digits[1..])
    ensures Pick(lists, digits) == [lists[0][digits[0]]] + Pick(lists[1..], digits[1..])
  {
  }

  /** The choice at the position the digits write is the choice the digits make; with
      DigitsAreDigits every position is one of these, and once only. */
  lemma {:induction false} MixedRadix(lists: seq<Parts>, digits: seq<nat>)
    requires AreDigits(lists, digits)
    ensures |Chosen(lists)| == Product(lists) && Value(lists, digits) < Product(lists)
    ensures Chosen(lists)[Value(lists, digits)] == Pick(lists, digits)
  {
    ChosenLength(lists);
    DigitsRoundTrip(lists, digits);
    if lists != [] {
      MixedRadix(lists[1..], digits[1..]);
      ChosenBlock(lists, |lists[0]|, digits[0], Value(lists[1..], digits[1..]));
      PickFirst(lists, digits);
    }
  }

  // ---------------------------------------------------------------- the product as a bag

  function Count<T(==)>(x: T, s: seq<T>): nat {
    multiset(s)[x]
  }

  lemma CountConcat<T>(x: T, a: seq<T>, b: seq<T>)
    ensures Count(x, a + b) == Count(x, a) + Count(x, b)
  {
  }

  lemma CountFirst<T>(x: T, s: seq<T>)
    requires s != []
    ensures Count(x, s) == (if x == s[0] then 1 else 0) + Count(x, s[1..])
  {
    assert s == [s[0]] + s[1..];
  }

  /** How often a choice can be made: the product of its values' multiplicities. */
  function Ways(lists: seq<Parts>, choice: Parts): nat
    requires |choice| == |lists|
  {
    if lists == [] then 1 else Count(choice[0], lists[0]) * Ways(lists[1..], choice[1..])
  }

  lemma PrependFirst(p: Part, tails: seq<Parts>)
    requires tails != []
    ensures Prepend(p, tails)[0] == [p] + tails[0] && Prepend(p, tails)[1..] == Prepend(p, tails[1..])
  {
  }

  lemma {:induction false} PrependCounts(p: Part, tails: seq<Parts>, choice: Parts)
    requires choice != []
    ensures Count(choice, Prepend(p, tails)) == if p == choice[0] then Count(choice[1..], tails) else 0
  {
    if tails != [] {
      hide Count;
      PrependCounts(p, tails[1..], choice);
      PrependFirst(p, tails);
      ConsEquals(p, tails[0], choice);
      hide Prepend;
      CountFirst(choice, Prepend(p, tails));
      CountFirst(choice[1..], tails);
    }
  }

  lemma ConsEquals(p: Part, tail: Parts, choice: Parts)
    requires choice != []
    ensures choice == [p] + tail <==> p == choice[0] && tail == choice[1..]
  {
    assert ([p] + tail)[1..] == tail;
    assert choice == [choice[0]] + choice[1..];
  }

  lemma CountSingle<T>(x: T, y: T)
    ensures Count(x, [y]) == if x == y then 1 else 0
  {
  }

  lemma {:induction false} ChosenUpToCounts(lists: seq<Parts>, i: nat, choice: Parts)
    requires lists != [] && i <= |lists[0]| && |choice| == |lists|
    ensures Count(choice, ChosenUpTo(lists, i)) == Count(choice[0], lists[0][..i]) * Ways(lists[1..], choice[1..])
    decreases |lists|, 1, i
  {
    if i > 0 {
      hide Count;
      ChosenUpToCounts(lists, i - 1, choice);
      ChosenCounts(lists[1..], choice[1..]);
      PrependCounts(lists[0][i - 1], Chosen(lists[1..]), choice);
      CountConcat(choice, ChosenUpTo(lists, i - 1), Prepend(lists[0][i - 1], Chosen(lists[1..])));
      assert lists[0][..i] == lists[0][..i - 1] + [lists[0][i - 1]];
      CountConcat(choice[0], lists[0][..i - 1], [lists[0][i - 1]]);
      CountSingle(choice[0], lists[0][i - 1]);
      OneMore(Count(choice[0], lists[0][..i - 1]), Ways(lists[1..], choice[1..]));
    } else {
      assert lists[0][..0] == [];
    }
  }

  lemma OneMore(m: nat, w: nat)
    ensures (m + 1) * w == m * w + w
  {
  }

  /** The choices are the Cartesian product, counted with multiplicity. */
  lemma {:induction false} ChosenCounts(lists: seq<Parts>, choice: Parts)
    requires |choice| == |lists|
    ensures Count(choice, Chosen(lists)) == Ways(lists, choice)
    decreases |lists|, 2
  {
    if lists != [] {
      ChosenUpToCounts(lists, |lists[0]|, choice);
      assert lists[0][..|lists[0]|] == lists[0];
    } else {
      assert choice == [];
    }
  }

  lemma {:induction false} WaysSnoc(lists: seq<Parts>, last: Parts, choice: Parts, p: Part)
    requires |choice| == |lists|
    ensures Ways(lists + [last], choice + [p]) == Ways(lists, choice) * Count(p, last)
  {
    if lists == [] {
      assert lists + [last] == [last] && choice + [p] == [p];
      assert [last][1..] == [] && [p][1..] == [];
    } else {
      WaysSnoc(lists[1..], last, choice[1..], p);
      assert (lists + [last])[1..] == lists[1..] + [last];
      assert (choice + [p])[1..] == choice[1..] + [p];
      Associate(Count(choice[0], lists[0]), Ways(lists[1..], choice[1..]), Count(p, last));
    }
  }

  lemma Associate(a: nat, b: nat, c: nat)
    ensures a * (b * c) == (a * b) * c
  {
  }

  lemma {:induction false} WaysReversed(lists: seq<Parts>, choice: Parts)
    requires |choice| == |lists|
    ensures Ways(Reverse(lists), Reverse(choice)) == Ways(lists, choice)
  {
    if lists != [] {
      WaysReversed(lists[1..], choice[1..]);
      WaysSnoc(Reverse(lists[1..]), lists[0], Reverse(choice[1..]), choice[0]);
      assert Reverse(lists) == Reverse(lists[1..]) + [lists[0]];
      assert Reverse(choice) == Reverse(choice[1..]) + [choice[0]];
    }
  }

  // ---------------------------------------------------------------- the lines

  /** Where the recursion starts, and the component it turns to after `k`. */
  function FirstNumber(order: Order, n: nat): int {
    if order.Ascend? then 0 else n - 1
  }

  function NextNumber(order: Order, k: int): int {
    if order.Ascend? then k + 1 else k - 1
  }

  /** A value of "can_be_null" or "can_be_absent" leaves the part empty. */
  function Shown(part: Part): Part {
    if part == "can_be_null" || part == "can_be_absent" then "" else part
  }

  function ShownAll(parts: Parts): (r: Parts)
    ensures |r| == |parts|
    ensures forall i :: 0 <= i < |parts| ==> r[i] == Shown(parts[i])
  {
    seq(|parts|, i requires 0 <= i < |parts| => Shown(parts[i]))
  }

  /** The value lists of all components, as they are shown. */
  function Caseline(components: seq<Parts>): (r: seq<Parts>)
    ensures |r| == |components|
    ensures forall i :: 0 <= i < |components| ==> r[i] == ShownAll(components[i])
  {
    seq(|components|, i requires 0 <= i < |components| => ShownAll(components[i]))
  }

  /** The lists still to be visited from component `k` on, in visiting order. */
  function Visiting(order: Order, lists: seq<Parts>, k: int): seq<Parts>
    requires -1 <= k <= |lists|
    decreases if order.Ascend? then |lists| - k else k + 1
  {
    if k == -1 || k == |lists| then [] else [lists[k]] + Visiting(order, lists, NextNumber(order, k))
  }

  function Attach(order: Order, line: string, part: Part): string {
    if order.Ascend? then line + " " + part else part + " " + line
  }

  function AttachAll(order: Order, line: string, parts: Parts): string
    decreases |parts|
  {
    if parts == [] then line else AttachAll(order, Attach(order, line, parts[0]), parts[1..])
  }

  function Lines(order: Order, line: string, choices: seq<Parts>): (r: seq<string>)
    ensures |r| == |choices|
    ensures forall j :: 0 <= j < |choices| ==> r[j] == AttachAll(order, line, choices[j])
  {
    seq(|choices|, j requires 0 <= j < |choices| => AttachAll(order, line, choices[j]))
  }

  lemma LinesPrepend(order: Order, line: string, p: Part, tails: seq<Parts>)
    ensures Lines(order, line, Prepend(p, tails)) == Lines(order, Attach(order, line, p), tails)
  {
    forall j | 0 <= j < |tails|
      ensures AttachAll(order, line, [p] + tails[j]) == AttachAll(order, Attach(order, line, p), tails[j])
    {
      assert ([p] + tails[j])[1..] == tails[j];
    }
  }

  lemma LinesConcat(order: Order, line: string, a: seq<Parts>, b: seq<Parts>)
    ensures Lines(order, line, a + b) == Lines(order, line, a) + Lines(order, line, b)
  {
  }

  /** The lines a check accepts, in order. */
  function Accepted(check: string -> bool, lines: seq<string>): seq<string> {
    if lines == [] then []
    else if check(lines[|lines| - 1]) then Accepted(check, lines[..|lines| - 1]) + [lines[|lines| - 1]]
    else Accepted(check, lines[..|lines| - 1])
  }

  lemma {:induction false} AcceptedConcat(check: string -> bool, a: seq<string>, b: seq<string>)
    ensures Accepted(check, a + b) == Accepted(check, a) + Accepted(check, b)
  {
    if b == [] {
      assert a + b == a;
    } else {
      var n := |b| - 1;
      AcceptedConcat(check, a, b[..n]);
      assert (a + b)[..|a + b| - 1] == a + b[..n];
    }
  }

  function Numbered(name: string, from: nat, lines: seq<string>): (r: seq<Case>)
    ensures |r| == |lines|
    ensures forall i :: 0 <= i < |lines| ==> r[i] == Case(name, from + 1 + i, lines[i])
  {
    seq(|lines|, i requires 0 <= i < |lines| => Case(name, from + 1 + i, lines[i]))
  }

  lemma NumberedConcat(name: string, from: nat, a: seq<string>, b: seq<string>)
    ensures Numbered(name, from, a + b) == Numbered(name, from, a) + Numbered(name, from + |a|, b)
  {
  }

  /** An accepted line is numbered by the accepted lines before it: nothing is lost,
      order is kept and there are no gaps. */
  lemma {:induction false} AcceptedInOrder(check: string -> bool, lines: seq<string>, j: nat)
    requires j < |lines| && check(lines[j])
    ensures |Accepted(check, lines[..j])| < |Accepted(check, lines)|
    ensures Accepted(check, lines)[|Accepted(check, lines[..j])|] == lines[j]
  {
    assert lines == lines[..j] + lines[j..];
    assert lines[j..] == [lines[j]] + lines[j + 1..];
    AcceptedConcat(check, lines[..j], lines[j..]);
    AcceptedConcat(check, [lines[j]], lines[j + 1..]);
    AcceptedOne(check, lines[j]);
  }

  lemma {:induction false} OnlyAccepted(check: string -> bool, lines: seq<string>, i: nat)
    requires i < |Accepted(check, lines)|
    ensures exists j :: 0 <= j < |lines| && check(lines[j]) && |Accepted(check, lines[..j])| == i
  {
    var n := |lines| - 1;
    if i < |Accepted(check, lines[..n])| {
      OnlyAccepted(check, lines[..n], i);
      var j :| 0 <= j < n && check(lines[..n][j]) && |Accepted(check, lines[..n][..j])| == i;
      assert lines[..n][..j] == lines[..j];
    } else {
      assert check(lines[n]) && |Accepted(check, lines[..n])| == i;
    }
  }

  /** The cases of some lines: the accepted ones, numbered from `from` + 1. */
  function Cases(check: string -> bool, name: string, from: nat, lines: seq<string>): seq<Case> {
    Numbered(name, from, Accepted(check, lines))
  }

  lemma CasesConcat(check: string -> bool, name: string, from: nat, a: seq<string>, b: seq<string>)
    ensures Cases(check, name, from, a + b) == Cases(check, name, from, a) + Cases(check, name, from + |Accepted(check, a)|, b)
    ensures |Accepted(check, a + b)| == |Accepted(check, a)| + |Accepted(check, b)|
  {
    AcceptedConcat(check, a, b);
    NumberedConcat(name, from, Accepted(check, a), Accepted(check, b));
  }

  /** All lines from component `k` on, around what is already composed. */
  function Emitted(order: Order, lists: seq<Parts>, k: int, line: string): seq<string>
    requires -1 <= k <= |lists|
  {
    Lines(order, line, Chosen(Visiting(order, lists, k)))
  }

  /** The lines of the first `i` values of component `k`. */
  function EmittedUpTo(order: Order, lists: seq<Parts>, k: int, line: string, i: nat): seq<string>
    requires 0 <= k < |lists| && i <= |lists[k]|
  {
    Lines(order, line, ChosenUpTo(Visiting(order, lists, k), i))
  }

  /** One more value emits what the following components make of the longer line. */
  lemma EmittedStep(order: Order, lists: seq<Parts>, k: int, line: string, i: nat)
    requires 0 <= k < |lists| && i < |lists[k]|
    ensures EmittedUpTo(order, lists, k, line, i + 1) ==
            EmittedUpTo(order, lists, k, line, i)
            + Emitted(order, lists, NextNumber(order, k), Attach(order, line, lists[k][i]))
  {
    var visiting := Visiting(order, lists, k);
    var rest := Visiting(order, lists, NextNumber(order, k));
    assert visiting[0] == lists[k] && visiting[1..] == rest;
    LinesConcat(order, line, ChosenUpTo(visiting, i), Prepend(lists[k][i], Chosen(rest)));
    LinesPrepend(order, line, lists[k][i], Chosen(rest));
  }

  lemma EmittedNone(order: Order, lists: seq<Parts>, k: int, line: string)
    requires 0 <= k < |lists|
    ensures EmittedUpTo(order, lists, k, line, 0) == []
    ensures EmittedUpTo(order, lists, k, line, |lists[k]|) == Emitted(order, lists, k, line)
  {
  }

  lemma EmittedLast(order: Order, lists: seq<Parts>, k: int, line: string)
    requires k == -1 || k == |lists|
    ensures Emitted(order, lists, k, line) == [line]
  {
    assert Chosen([]) == [[]];
  }

  // ---------------------------------------------------------------- case blocks

  /** A line of a case block: a type, a name list and a value list. */
  datatype Block = Block(kind: string, names: Parts, values: Parts)

  function Rendered(kind: string, name: Part, value: Part): Part {
    if value == "can_be_absent" || name == "" then ""
    else
      var shown := if value == "can_be_null" then "" else value;
      if kind == "string" then name + " \"" + shown + "\""
      else if kind == "escape" then "\\" + name
      else name + " " + shown
  }

  /** Every name with every value, the values running fastest. */
  function Pairs(block: Block): (r: Parts)
    ensures |r| == |block.names| * |block.values|
  {
    seq(|block.names| * |block.values|, j requires 0 <= j < |block.names| * |block.values| =>
      PairAt(block, j))
  }

  function PairAt(block: Block, j: nat): Part
    requires j < |block.names| * |block.values|
  {
    DivMod(j, |block.values|, |block.names|);
    Rendered(block.kind, block.names[j / |block.values|], block.values[j % |block.values|])
  }

  lemma PairsAt(block: Block, a: nat, v: nat)
    requires a < |block.names| && v < |block.values|
    ensures a * |block.values| + v < |Pairs(block)|
    ensures Pairs(block)[a * |block.values| + v] == Rendered(block.kind, block.names[a], block.values[v])
  {
    Within(a, v, |block.values|, |block.names|);
    DivUnique(a * |block.values| + v, a, v, |block.values|);
  }

  /** The text of a name with a value, by the type of its component: a "string" has its value
      in quotes, an "escape" a backslash before its name and no value.  "can_be_null" leaves
      the value empty, "can_be_absent" leaves all empty, as an empty name does. */
  lemma PairTexts(block: Block, a: nat, v: nat)
    requires a < |block.names| && v < |block.values|
    ensures a * |block.values| + v < |Pairs(block)|
    ensures var text, name, value := Pairs(block)[a * |block.values| + v], block.names[a], block.values[v];
            && (value == "can_be_absent" || name == "" ==> text == "")
            && (value != "can_be_absent" && name != "" ==>
                  && (block.kind == "string" && value != "can_be_null" ==> text == name + " \"" + value + "\"")
                  && (block.kind == "string" && value == "can_be_null" ==> text == name + " \"\"")
                  && (block.kind == "escape" ==> text == "\\" + name)
                  && (block.kind != "string" && block.kind != "escape" && value != "can_be_null" ==> text == name + " " + value)
                  && (block.kind != "string" && block.kind != "escape" && value == "can_be_null" ==> text == name + " "))
  {
    PairsAt(block, a, v);
    var name := block.names[a];
    assert name + " \"" + "" + "\"" == name + " \"\"" && name + " " + "" == name + " ";
    hide Pairs;
  }

  /** The parts of a caseline that are left blank. */
  lemma ShownParts(parts: Parts, i: nat)
    requires i < |parts|
    ensures ShownAll(parts)[i] == (if parts[i] == "can_be_null" || parts[i] == "can_be_absent" then "" else parts[i])
  {
  }

  function Caseblock(blocks: seq<Block>): (r: seq<Parts>)
    ensures |r| == |blocks|
    ensures forall i :: 0 <= i < |blocks| ==> r[i] == Pairs(blocks[i])
  {
    seq(|blocks|, i requires 0 <= i < |blocks| => Pairs(blocks[i]))
  }

  /** Whether some component's value list is empty, as found while reading a block. */
  method AnyEmpty(bs: seq<Block>) returns (skip: bool)
    ensures skip <==> exists i :: 0 <= i < |bs| && bs[i].values == []
  {
    skip := false;
    for i := 0 to |bs|
      invariant skip <==> exists k :: 0 <= k < i && bs[k].values == []
    {
      if bs[i].values == [] {
        skip := true;
      }
    }
  }

  lemma {:induction false} ProductZero(lists: seq<Parts>, i: nat)
    requires i < |lists| && lists[i] == []
    ensures Product(lists) == 0
  {
    if i > 0 {
      ProductZero(lists[1..], i - 1);
    }
  }

  lemma SkippedIsEmpty(order: Order, bs: seq<Block>)
    requires exists i :: 0 <= i < |bs| && bs[i].values == []
    ensures Emitted(order, Caseblock(bs), FirstNumber(order, |bs|), "") == []
  {
    var i :| 0 <= i < |bs| && bs[i].values == [];
    var lists := Caseblock(bs);
    assert |lists[i]| == |bs[i].names| * 0;
    VisitedIsOrdered(order, lists);
    var visited := Ordered(order, lists);
    ProductZero(visited, if order.Ascend? then i else |lists| - 1 - i);
    ChosenLength(visited);
  }

  // ---------------------------------------------------------------- the generator

  /** A generator's fields at one moment. */
  datatype State = State(order: Order, check: string -> bool, name: string, line: string, number: nat, output: seq<Case>)

  /** From `s` to `t` exactly the accepted ones of `lines` were numbered and emitted. */
  ghost predicate Ran(s: State, t: State, lines: seq<string>) {
    && t.output == s.output + Cases(s.check, s.name, s.number, lines)
    && t.number == s.number + |Accepted(s.check, lines)|
  }

  ghost predicate Reached(s: State, t: State, lists: seq<Parts>, k: int, i: nat) {
    && 0 <= k < |lists| && i <= |lists[k]|
    && Ran(s, t, EmittedUpTo(s.order, lists, k, s.line, i))
  }

  lemma ReachedNone(s: State, lists: seq<Parts>, k: int)
    requires 0 <= k < |lists|
    ensures Reached(s, s, lists, k, 0)
    ensures forall t :: Reached(s, t, lists, k, |lists[k]|) ==> Ran(s, t, Emitted(s.order, lists, k, s.line))
  {
    EmittedNone(s.order, lists, k, s.line);
    NoCases(s.check, s.name, s.number);
  }

  /** From `s` on entry through `t` to `u`, when all below the next value is emitted. */
  lemma ReachedStep(s: State, t: State, u: State, lists: seq<Parts>, k: int, i: nat)
    requires Reached(s, t, lists, k, i) && i < |lists[k]|
    requires t.check == s.check && t.name == s.name && t.line == s.line
    requires Ran(t.(line := Attach(s.order, s.line, lists[k][i])), u,
                 Emitted(s.order, lists, NextNumber(s.order, k), Attach(s.order, s.line, lists[k][i])))
    ensures Reached(s, u.(line := s.line), lists, k, i + 1)
  {
    hide Ran, EmittedUpTo, Emitted;
    var next := Attach(s.order, s.line, lists[k][i]);
    EmittedStep(s.order, lists, k, s.line, i);
    RanLine(s, t, EmittedUpTo(s.order, lists, k, s.line, i), next);
    RanLine(s, u, EmittedUpTo(s.order, lists, k, s.line, i + 1), s.line);
    RanTwice(s, t.(line := next), u, EmittedUpTo(s.order, lists, k, s.line, i), Emitted(s.order, lists, NextNumber(s.order, k), next));
  }

  lemma RanTwice(s: State, t: State, u: State, a: seq<string>, b: seq<string>)
    requires t.check == s.check && t.name == s.name
    requires Ran(s, t, a) && Ran(t, u, b)
    ensures Ran(s, u, a + b)
  {
    hide Cases, Accepted;
    CasesConcat(s.check, s.name, s.number, a, b);
    assert u.output == s.output + (Cases(s.check, s.name, s.number, a) + Cases(s.check, s.name, t.number, b));
  }

  lemma RanOne(s: State, t: State)
    requires t.number == (if s.check(s.line) then s.number + 1 else s.number)
    requires t.output == (if s.check(s.line) then s.output + [Case(s.name, s.number + 1, s.line)] else s.output)
    ensures Ran(s, t, [s.line])
  {
    AcceptedOne(s.check, s.line);
    hide Accepted;
    assert Numbered(s.name, s.number, [s.line]) == [Case(s.name, s.number + 1, s.line)];
    assert Numbered(s.name, s.number, []) == [];
  }

  /** The line under composition does not matter to what was emitted. */
  lemma RanLine(s: State, t: State, lines: seq<string>, line: string)
    ensures Ran(s, t.(line := line), lines) == Ran(s, t, lines)
  {
  }

  class Generator {
    const order: Order
    /** $CASE_CHECK: accepts every line when no checker is set. */
    var check: string -> bool
    var testName: string
    var components: seq<Parts>
    var blocks: seq<Block>
    var testCase: string
    var caseNumber: nat
    var output: seq<Case>

    constructor (order: Order, check: string -> bool)
      ensures this.order == order && this.check == check
      ensures caseNumber == 0 && output == [] && testCase == ""
    {
      this.order, this.check := order, check;
      testName, components, blocks := "", [], [];
      testCase, caseNumber, output := "", 0, [];
    }

    function Name(): string
      reads this
    {
      if testName == "" then "testcase" else testName
    }

    ghost function Now(): State
      reads this
    {
      State(order, check, Name(), testCase, caseNumber, output)
    }

    /** `add_case`: number and echo the composed line unless the checker refuses it. */
    method AddCase()
      modifies this`caseNumber, this`output
      ensures Ran(old(Now()), Now(), [testCase])
    {
      hide Ran;
      ghost var before := Now();
      if !check(testCase) {
        RanOne(before, Now());
        return;
      }
      caseNumber := caseNumber + 1;
      output := output + [Case(Name(), caseNumber, testCase)];
      RanOne(before, Now());
    }

    /** `processparts`. */
    method ProcessParts(k: int)
      requires 0 <= k < |components|
      modifies this`testCase, this`caseNumber, this`output
      ensures testCase == old(testCase)
      ensures Ran(old(Now()), Now(), Emitted(order, Caseline(components), k, old(testCase)))
      decreases if order.Ascend? then |components| - k else k + 1
    {
      hide Emitted, EmittedUpTo, Cases, Reached, Ran;
      ghost var lists := Caseline(components);
      var next := NextNumber(order, k);
      ghost var state0 := Now();
      ReachedNone(state0, lists, k);
      var i := 0;
      while i < |components[k]|
        invariant 0 <= i <= |components[k]|
        invariant testCase == old(testCase)
        invariant Reached(state0, Now(), lists, k, i)
      {
        var part := components[k][i];
        ghost var before := Now();
        var oldCase := testCase;
        if part == "can_be_null" {
          part := "";
        }
        if part == "can_be_absent" {
          part := "";
        }
        testCase := if next < k then part + " " + testCase else testCase + " " + part;
        if next == -1 || next == |components| {
          EmittedLast(order, lists, next, testCase);
          AddCase();
        } else {
          ProcessParts(next);
        }
        ReachedStep(state0, before, Now(), lists, k, i);
        testCase := oldCase;
        i := i + 1;
      }
    }

    /** `processargs`. */
    method ProcessArgs(k: int)
      requires 0 <= k < |blocks|
      modifies this`testCase, this`caseNumber, this`output
      ensures testCase == old(testCase)
      ensures Ran(old(Now()), Now(), Emitted(order, Caseblock(blocks), k, old(testCase)))
      decreases if order.Ascend? then |blocks| - k else k + 1
    {
      hide Emitted, EmittedUpTo, Cases, Reached, Ran, Pairs;
      ghost var lists := Caseblock(blocks);
      var next := NextNumber(order, k);
      var names, values := blocks[k].names, blocks[k].values;
      ghost var state0 := Now();
      ReachedNone(state0, lists, k);
      var a := 0;
      ghost var done := 0;
      while a < |names|
        invariant 0 <= a <= |names| && done == a * |values| <= |lists[k]|
        invariant testCase == old(testCase)
        invariant Reached(state0, Now(), lists, k, done)
      {
        var v := 0;
        RowWithin(a, |names|, |values|);
        while v < |values|
          invariant 0 <= v <= |values| && done == a * |values| + v <= |lists[k]|
          invariant testCase == old(testCase)
          invariant Reached(state0, Now(), lists, k, done)
        {
          ghost var before := Now();
          var oldCase := testCase;
          var part, value := names[a], values[v];
          PairsAt(blocks[k], a, v);
          assert lists[k][done] == Rendered(blocks[k].kind, names[a], values[v]);
          if value == "can_be_absent" {
            part, value := "", "";
          } else if value == "can_be_null" {
            value := "";
          }
          if part != "" {
            if blocks[k].kind == "string" {
              part := part + " \"" + value + "\"";
            } else if blocks[k].kind == "escape" {
              part := "\\" + part;
            } else {
              part := part + " " + value;
            }
          }
          testCase := if next < k then part + " " + testCase else testCase + " " + part;
          if next == -1 || next == |blocks| {
            EmittedLast(order, lists, next, testCase);
            AddCase();
          } else {
            ProcessArgs(next);
          }
          ReachedStep(state0, before, Now(), lists, k, done);
          testCase := oldCase;
          v := v + 1;
          done := done + 1;
        }
        a := a + 1;
      }
    }

    /** One line of a caseline file: nothing without components, else the whole product. */
    method ProcessCaseline(name: string, cases: seq<Parts>)
      modifies this
      ensures check == old(check) && components == cases && testName == name
      ensures testCase == "" && Name() == if name == "" then "testcase" else name
      ensures cases == [] ==> output == old(output) && caseNumber == old(caseNumber)
      ensures cases != [] ==>
                var lines := Emitted(order, Caseline(cases), FirstNumber(order, |cases|), "");
                && output == old(output) + Cases(check, Name(), old(caseNumber), lines)
                && caseNumber == old(caseNumber) + |Accepted(check, lines)|
      ensures cases != [] && AcceptsAll(check) ==>
                AddsInOrder(old(output), output, Name(), old(caseNumber), order, Ordered(order, Caseline(cases)))
    {
      testCase, testName, components := "", name, cases;
      if |cases| < 1 {
        return;
      }
      hide Emitted, Cases, Accepted, AddsInOrder, AcceptsAll, Ordered;
      ProcessParts(FirstNumber(order, |cases|));
      if AcceptsAll(check) {
        EmittedInOrder(check, Name(), old(caseNumber), order, Caseline(cases), old(output));
      }
    }

    /** One block of a caseblock file: nothing without components, else the whole product,
        numbered on from the last block.  A block with an empty value list is skipped, and
        its product has no lines. */
    method ProcessCaseblock(bs: seq<Block>)
      requires testCase == ""
      modifies this`blocks, this`testCase, this`caseNumber, this`output
      ensures testCase == ""
      ensures bs == [] ==> output == old(output) && caseNumber == old(caseNumber)
      ensures bs != [] ==>
                var lines := Emitted(order, Caseblock(bs), FirstNumber(order, |bs|), "");
                && output == old(output) + Cases(check, Name(), old(caseNumber), lines)
                && caseNumber == old(caseNumber) + |Accepted(check, lines)|
      ensures bs != [] && AcceptsAll(check) ==>
                AddsInOrder(old(output), output, Name(), old(caseNumber), order, Ordered(order, Caseblock(bs)))
    {
      blocks := bs;
      if |bs| < 1 {
        return;
      }
      var skip := AnyEmpty(bs);
      hide Emitted, Cases, Accepted, AddsInOrder, AcceptsAll, Ordered, Pairs, Caseblock;
      if !skip {
        ProcessArgs(FirstNumber(order, |bs|));
      } else {
        SkippedIsEmpty(order, bs);
        NoCases(check, Name(), caseNumber);
      }
      if AcceptsAll(check) {
        EmittedInOrder(check, Name(), old(caseNumber), order, Caseblock(bs), old(output));
      }
    }
  }

  lemma AcceptedOne(check: string -> bool, line: string)
    ensures Accepted(check, [line]) == if check(line) then [line] else []
  {
    assert [line][..0] == [];
    assert Accepted(check, [line][..0]) == [];
  }

  lemma NoCases(check: string -> bool, name: string, from: nat)
    ensures Cases(check, name, from, []) == [] && Accepted(check, []) == []
  {
  }

  lemma RowWithin(a: nat, rows: nat, width: nat)
    requires a < rows
    ensures a * width + width == (a + 1) * width <= rows * width
  {
  }

  // ---------------------------------------------------------------- which line is which

  ghost predicate AcceptsAll(check: string -> bool) {
    forall line :: check(line)
  }

  /** The lists in the order the recursion visits them. */
  function Ordered(order: Order, lists: seq<Parts>): seq<Parts> {
    if order.Ascend? then lists else Reverse(lists)
  }

  /** The line of the choice that the digits of `j` pick. */
  function ChoiceLine(order: Order, lists: seq<Parts>, j: nat): string
    requires j < Product(lists)
  {
    DigitsAreDigits(lists, j);
    AttachAll(order, "", Pick(lists, Digits(lists, j)))
  }

  lemma {:induction false} AllAccepted(check: string -> bool, lines: seq<string>)
    requires AcceptsAll(check)
    ensures Accepted(check, lines) == lines
  {
    if lines != [] {
      AllAccepted(check, lines[..|lines| - 1]);
    }
  }

  /** As many cases were added as the lists have choices; the j-th of them, counted from 0,
      has number `from` + 1 + j and the choice that the digits of j pick. */
  ghost predicate AddsInOrder(before: seq<Case>, after: seq<Case>, name: string, from: nat, order: Order, lists: seq<Parts>) {
    && |after| == |before| + Product(lists) && before <= after
    && forall j :: 0 <= j < Product(lists) ==> after[|before| + j] == Case(name, from + 1 + j, ChoiceLine(order, lists, j))
  }

  /** Without a checker the j-th case, counted from 0, is the choice the digits of j pick. */
  lemma EmittedInOrder(check: string -> bool, name: string, from: nat, order: Order, lists: seq<Parts>, before: seq<Case>)
    requires AcceptsAll(check)
    ensures var cases := Cases(check, name, from, Emitted(order, lists, FirstNumber(order, |lists|), ""));
            AddsInOrder(before, before + cases, name, from, order, Ordered(order, lists))
  {
    var visited, first := Ordered(order, lists), FirstNumber(order, |lists|);
    VisitedIsOrdered(order, lists);
    var lines := Emitted(order, lists, first, "");
    AllAccepted(check, lines);
    ChosenLength(visited);
    assert |lines| == Product(visited);
    hide Accepted, Ordered;
    forall j | 0 <= j < Product(visited)
      ensures Cases(check, name, from, lines)[j] == Case(name, from + 1 + j, ChoiceLine(order, visited, j))
    {
      DigitsAreDigits(visited, j);
      MixedRadix(visited, Digits(visited, j));
    }
  }

  lemma VisitedIsOrdered(order: Order, lists: seq<Parts>)
    ensures Visiting(order, lists, FirstNumber(order, |lists|)) == Ordered(order, lists)
  {
    VisitingAscends(lists, 0);
    VisitingDescends(lists, |lists| - 1);
    assert lists[0..] == lists && lists[..|lists|] == lists;
  }

  // ---------------------------------------------------------------- the two orders

  lemma {:induction false} VisitingAscends(lists: seq<Parts>, k: nat)
    requires k <= |lists|
    ensures Visiting(Ascend, lists, k) == lists[k..]
    decreases |lists| - k
  {
    if k < |lists| {
      VisitingAscends(lists, k + 1);
    }
  }

  lemma {:induction false} VisitingDescends(lists: seq<Parts>, k: int)
    requires -1 <= k < |lists|
    ensures Visiting(Descending, lists, k) == Reverse(lists[..k + 1])
    decreases k + 1
  {
    if k >= 0 {
      VisitingDescends(lists, k - 1);
      assert lists[..k + 1] == lists[..k] + [lists[k]];
    }
  }

  function Whole(order: Order, lists: seq<Parts>): seq<Parts> {
    Chosen(Visiting(order, lists, FirstNumber(order, |lists|)))
  }

  lemma WholeIs(lists: seq<Parts>)
    ensures Whole(Ascend, lists) == Chosen(lists)
    ensures Whole(Descending, lists) == Chosen(Reverse(lists))
  {
    VisitingAscends(lists, 0);
    VisitingDescends(lists, |lists| - 1);
    assert lists[0..] == lists && lists[..|lists|] == lists;
  }

  /** "ascend" is mixed radix with the last component fastest. */
  lemma AscendIsMixedRadix(lists: seq<Parts>, digits: seq<nat>)
    requires AreDigits(lists, digits)
    ensures |Whole(Ascend, lists)| == Product(lists) && Value(lists, digits) < Product(lists)
    ensures Whole(Ascend, lists)[Value(lists, digits)] == Pick(lists, digits)
  {
    WholeIs(lists);
    MixedRadix(lists, digits);
  }

  /** The default order is mixed radix with component 0 fastest. */
  lemma DefaultIsMixedRadix(lists: seq<Parts>, digits: seq<nat>)
    requires AreDigits(lists, digits)
    ensures AreDigits(Reverse(lists), Reverse(digits))
    ensures |Whole(Descending, lists)| == Product(Reverse(lists))
    ensures Value(Reverse(lists), Reverse(digits)) < Product(Reverse(lists))
    ensures Whole(Descending, lists)[Value(Reverse(lists), Reverse(digits))] == Reverse(Pick(lists, digits))
  {
    WholeIs(lists);
    MixedRadix(Reverse(lists), Reverse(digits));
  }

  /** Each order emits each choice, component by component, equally often. */
  lemma OrdersAgree(lists: seq<Parts>, choice: Parts)
    requires |choice| == |lists|
    ensures Count(choice, Whole(Ascend, lists)) == Ways(lists, choice)
    ensures Count(Reverse(choice), Whole(Descending, lists)) == Ways(lists, choice)
  {
    WholeIs(lists);
    ChosenCounts(lists, choice);
    ChosenCounts(Reverse(lists), Reverse(choice));
    WaysReversed(lists, choice);
  }

  lemma {:induction false} AttachDescending(line: string, parts: Parts, first: Part)
    ensures AttachAll(Descending, line, parts + [first]) == first + " " + AttachAll(Descending, line, parts)
    decreases |parts|
  {
    if parts == [] {
      assert [first][1..] == [];
    } else {
      AttachDescending(Attach(Descending, line, parts[0]), parts[1..], first);
      assert (parts + [first])[1..] == parts[1..] + [first];
    }
  }

  lemma {:induction false} AttachAscend(line: string, parts: Parts)
    ensures AttachAll(Ascend, line, parts) == line + AttachAll(Ascend, "", parts)
    decreases |parts|
  {
    if parts != [] {
      hide AttachAll, Attach;
      var p, t := " " + parts[0], AttachAll(Ascend, "", parts[1..]);
      AttachStep(line, parts);
      AttachStep("", parts);
      assert "" + p == p;
      AttachAscend(line + p, parts[1..]);
      AttachAscend(p, parts[1..]);
      Concat3(line, p, t);
    } else {
      assert line + "" == line;
    }
  }

  lemma AttachStep(line: string, parts: Parts)
    requires parts != []
    ensures AttachAll(Ascend, line, parts) == AttachAll(Ascend, line + (" " + parts[0]), parts[1..])
  {
    Concat3(line, " ", parts[0]);
  }

  /** The two orders write a choice's parts in the same positions: the lines differ only
      in having their spare blank behind or in front. */
  lemma {:induction false} SameText(choice: Parts)
    ensures " " + AttachAll(Descending, "", Reverse(choice)) == AttachAll(Ascend, "", choice) + " "
  {
    if choice != [] {
      SameText(choice[1..]);
      var d, a := AttachAll(Descending, "", Reverse(choice[1..])), AttachAll(Ascend, "", choice[1..]);
      var p := choice[0];
      assert Reverse(choice) == Reverse(choice[1..]) + [p];
      AttachDescending("", Reverse(choice[1..]), p);
      AttachStep("", choice);
      assert "" + (" " + p) == " " + p;
      AttachAscend(" " + p, choice[1..]);
      hide AttachAll, Reverse;
      assert " " + d == a + " ";
      Concat3(p, " ", d);
      Concat3(" ", p, " " + d);
      Concat3(" " + p, a, " ");
    }
  }

  function ReverseEach(choices: seq<Parts>): (r: seq<Parts>)
    ensures |r| == |choices|
    ensures forall j :: 0 <= j < |choices| ==> r[j] == Reverse(choices[j])
  {
    seq(|choices|, j requires 0 <= j < |choices| => Reverse(choices[j]))
  }

  lemma ReverseEachFirst(choices: seq<Parts>)
    requires choices != []
    ensures ReverseEach(choices)[0] == Reverse(choices[0]) && ReverseEach(choices)[1..] == ReverseEach(choices[1..])
  {
  }

  lemma {:induction false} ReverseEachCounts(choices: seq<Parts>, choice: Parts)
    ensures Count(choice, ReverseEach(choices)) == Count(Reverse(choice), choices)
  {
    if choices != [] {
      hide Count;
      ReverseEachCounts(choices[1..], choice);
      ReverseEachFirst(choices);
      hide ReverseEach, Reverse;
      CountFirst(choice, ReverseEach(choices));
      CountFirst(Reverse(choice), choices);
      ReverseTwice(choice);
      ReverseTwice(choices[0]);
    }
  }

  lemma ChosenShape(lists: seq<Parts>, j: nat)
    requires j < |Chosen(lists)|
    ensures |Chosen(lists)[j]| == |lists|
  {
    ChosenLength(lists);
    DigitsAreDigits(lists, j);
    MixedRadix(lists, Digits(lists, j));
  }

  /** The two orders emit the same bag of choices, so by SameText the same bag of token
      lines. */
  lemma OrdersEmitTheSameBag(lists: seq<Parts>)
    ensures multiset(ReverseEach(Whole(Descending, lists))) == multiset(Whole(Ascend, lists))
  {
    var d, a := ReverseEach(Whole(Descending, lists)), Whole(Ascend, lists);
    forall choice: Parts
      ensures multiset(d)[choice] == multiset(a)[choice]
    {
      ReverseEachCounts(Whole(Descending, lists), choice);
      if |choice| == |lists| {
        OrdersAgree(lists, choice);
      } else {
        OtherShapesAbsent(lists, choice);
      }
    }
  }

  /** The text of a choice, with a blank at either end. */
  function Framed(choice: Parts): string {
    AttachAll(Ascend, "", choice) + " "
  }

  function FramedEach(choices: seq<Parts>): (r: seq<string>)
    ensures |r| == |choices|
    ensures forall j :: 0 <= j < |choices| ==> r[j] == Framed(choices[j])
  {
    seq(|choices|, j requires 0 <= j < |choices| => Framed(choices[j]))
  }

  /** The emitted lines, the spare blank made to stand at both ends. */
  function TokenLines(order: Order, lists: seq<Parts>): (r: seq<string>)
    ensures |r| == |Whole(order, lists)|
  {
    var lines := Lines(order, "", Whole(order, lists));
    seq(|lines|, j requires 0 <= j < |lines| => if order.Ascend? then lines[j] + " " else " " + lines[j])
  }

  lemma {:induction false} SameBagSameText(a: seq<Parts>, b: seq<Parts>)
    requires multiset(a) == multiset(b)
    ensures multiset(FramedEach(a)) == multiset(FramedEach(b))
    decreases |a|
  {
    assert |a| == |multiset(a)| && |b| == |multiset(b)|;
    if a == [] {
      assert b == [];
    } else {
      hide Framed, FramedEach;
      var k := Place(b, a[0]);
      var rest := b[..k] + b[k + 1..];
      SameRest(a, b, k, rest);
      SameBagSameText(a[1..], rest);
      FramedTakeOut(b, k, rest);
      FramedTakeOut(a, 0, a[1..]);
    }
  }

  lemma Place(b: seq<Parts>, x: Parts) returns (k: nat)
    requires x in multiset(b)
    ensures k < |b| && b[k] == x
  {
    k :| 0 <= k < |b| && b[k] == x;
  }

  lemma TakeOut<T>(s: seq<T>, k: nat, rest: seq<T>)
    requires k < |s| && rest == s[..k] + s[k + 1..]
    ensures multiset(s) == multiset(rest) + multiset{s[k]}
  {
    assert s == s[..k] + [s[k]] + s[k + 1..];
  }

  lemma SameRest(a: seq<Parts>, b: seq<Parts>, k: nat, rest: seq<Parts>)
    requires multiset(a) == multiset(b) && a != [] && k < |b| && b[k] == a[0] && rest == b[..k] + b[k + 1..]
    ensures multiset(a[1..]) == multiset(rest)
  {
    TakeOut(a, 0, a[1..]);
    TakeOut(b, k, rest);
    var m, n, x := multiset(a[1..]), multiset(rest), multiset{a[0]};
    assert m == (m + x) - x && n == (n + x) - x;
  }

  lemma FramedTakeOut(s: seq<Parts>, k: nat, rest: seq<Parts>)
    requires k < |s| && rest == s[..k] + s[k + 1..]
    ensures multiset(FramedEach(s)) == multiset(FramedEach(rest)) + multiset{Framed(s[k])}
  {
    var f, g := FramedEach(s), FramedEach(rest);
    assert g == f[..k] + f[k + 1..];
    TakeOut(f, k, g);
  }

  /** The two orders emit the same multiset of token lines. */
  lemma OrdersEmitTheSameLines(lists: seq<Parts>)
    ensures multiset(TokenLines(Descending, lists)) == multiset(TokenLines(Ascend, lists))
  {
    var d, a := Whole(Descending, lists), Whole(Ascend, lists);
    OrdersEmitTheSameBag(lists);
    SameBagSameText(ReverseEach(d), a);
    forall j | 0 <= j < |d|
      ensures TokenLines(Descending, lists)[j] == FramedEach(ReverseEach(d))[j]
    {
      SameText(Reverse(d[j]));
      ReverseTwice(d[j]);
    }
    assert TokenLines(Descending, lists) == FramedEach(ReverseEach(d));
    assert TokenLines(Ascend, lists) == FramedEach(a);
  }

  lemma OtherShapesAbsent(lists: seq<Parts>, choice: Parts)
    requires |choice| != |lists|
    ensures Count(choice, Whole(Ascend, lists)) == 0 && Count(Reverse(choice), Whole(Descending, lists)) == 0
  {
    WholeIs(lists);
    if choice in Chosen(lists) {
      var j :| 0 <= j < |Chosen(lists)| && Chosen(lists)[j] == choice;
      ChosenShape(lists, j);
    }
    if Reverse(choice) in Chosen(Reverse(lists)) {
      var j :| 0 <= j < |Chosen(Reverse(lists))| && Chosen(Reverse(lists))[j] == Reverse(choice);
      ChosenShape(Reverse(lists), j);
    }
  }
}
