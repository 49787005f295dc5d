/** The text of the ids the service hands out. */
module OrganizationIds {
  import opened Decimals
  import opened Organization

  function Zeros(n: nat): string
  {
    if n == 0 then [] else Zeros(n - 1) + ['0']
  }

  /** A number with leading zeros up to a width. */
  function Padded(width: nat, n: nat): string
  {
    var d := Decimal(n);
    (if |d| < width then Zeros(width - |d|) else []) + d
  }

  function Rendered(id: Id): string
  {
    match id
    case Root => "r-exam"
    case OU(n) => "ou-exam-" + Padded(8, n)
    case Account(n) => Padded(12, 100000000000 + n)
    case Policy(n) => "p-auto" + Padded(4, n)
    case Request(n) => "car-exam" + Padded(4, n)
    case Unknown(text) => text
  }

  lemma {:induction false} ZerosAreNothing(n: nat)
    ensures Value(Zeros(n)) == 0
  {
    if n > 0 {
      assert Zeros(n)[..|Zeros(n)| - 1] == Zeros(n - 1);
      ZerosAreNothing(n - 1);
    }
  }

  lemma PaddedValue(width: nat, n: nat)
    ensures Value(Padded(width, n)) == n
  {
    var d := Decimal(n);
    var zeros := if |d| < width then Zeros(width - |d|) else [];
    ZerosAreNothing(if |d| < width then width - |d| else 0);
    assert Zeros(0) == [];
    DecimalValue(zeros, n);
  }

  lemma PaddedStartsWithDigit(width: nat, n: nat)
    ensures Padded(width, n) != [] && '0' <= Padded(width, n)[0] <= '9'
  {
    var d := Decimal(n);
    DecimalStartsWithDigit(n);
    if |d| < width {
      ZerosStartWithDigit(width - |d|);
    }
  }

  lemma {:induction false} ZerosStartWithDigit(n: nat)
    requires n > 0
    ensures Zeros(n) != [] && Zeros(n)[0] == '0'
  {
    if n > 1 {
      ZerosStartWithDigit(n - 1);
    } else {
      assert Zeros(0) == [];
    }
  }

  function NumberOf(id: Id): nat
  {
    match id
    case OU(n) => n
    case Account(n) => 100000000000 + n
    case Policy(n) => n
    case Request(n) => n
    case _ => 0
  }

  function PrefixOf(id: Id): string
  {
    match id
    case Root => "r-exam"
    case OU(_) => "ou-exam-"
    case Account(_) => ""
    case Policy(_) => "p-auto"
    case Request(_) => "car-exam"
    case Unknown(_) => ""
  }

  function WidthOf(id: Id): nat
  {
    match id
    case OU(_) => 8
    case Account(_) => 12
    case _ => 4
  }

  predicate Numbered(id: Id)
  {
    id.OU? || id.Account? || id.Policy? || id.Request?
  }

  lemma RenderedParts(id: Id)
    requires Numbered(id)
    ensures Rendered(id) == PrefixOf(id) + Padded(WidthOf(id), NumberOf(id))
    ensures Rendered(id) != []
    ensures Rendered(id)[0] == if id.OU? then 'o' else if id.Policy? then 'p' else if id.Request? then 'c'
            else Padded(12, NumberOf(id))[0]
  {
    hide Padded;
    PaddedStartsWithDigit(WidthOf(id), NumberOf(id));
    assert Padded(12, NumberOf(id)) == [] + Padded(12, NumberOf(id));
  }

  /** Ids handed out for different things read differently. */
  lemma RenderedInjective(a: Id, b: Id)
    requires Rendered(a) == Rendered(b) && !a.Unknown? && !b.Unknown?
    ensures a == b
  {
    hide Rendered, Padded, Value;
    FirstCharacter(a);
    FirstCharacter(b);
    if Numbered(a) && Numbered(b) {
      RenderedParts(a);
      RenderedParts(b);
      var w, k := WidthOf(a), |PrefixOf(a)|;
      assert Rendered(a)[k..] == Padded(w, NumberOf(a));
      assert Rendered(b)[k..] == Padded(w, NumberOf(b));
      PaddedValue(w, NumberOf(a));
      PaddedValue(w, NumberOf(b));
    }
  }

  lemma FirstCharacter(id: Id)
    requires !id.Unknown?
    ensures Rendered(id) != []
    ensures id.Root? ==> Rendered(id)[0] == 'r'
    ensures id.OU? ==> Rendered(id)[0] == 'o'
    ensures id.Policy? ==> Rendered(id)[0] == 'p'
    ensures id.Request? ==> Rendered(id)[0] == 'c'
    ensures id.Account? ==> '0' <= Rendered(id)[0] <= '9'
  {
    hide Padded;
    if Numbered(id) {
      RenderedParts(id);
      PaddedStartsWithDigit(12, NumberOf(id));
    }
  }
}
