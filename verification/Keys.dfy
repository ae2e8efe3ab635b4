/** Keys of virtual nodes. */
module Keys {
  /** A key is compared by value and type, but indexes an object by its property name. */
  datatype Key = NumberKey(n: int) | StringKey(s: string)

  function Digits(n: nat): string {
    if n < 10 then ["0123456789"[n]] else Digits(n / 10) + ["0123456789"[n % 10]]
  }

  function PropertyName(k: Key): string {
    match k
    case NumberKey(n) => if n < 0 then "-" + Digits(-n) else Digits(n)
    case StringKey(s) => s
  }

  /** The number that a string of decimal digits is read as. */
  ghost function Decimal(s: string): int {
    if s == [] then 0 else 10 * Decimal(s[..|s| - 1]) + (s[|s| - 1] as int - '0' as int)
  }

  lemma {:induction false} DigitsRead(n: nat)
    ensures Decimal(Digits(n)) == n
    ensures Digits(n) != [] && (Digits(n)[0] == '0' <==> n == 0)
    ensures forall i :: 0 <= i < |Digits(n)| ==> '0' <= Digits(n)[i] <= '9'
  {
    if n < 10 {
      assert Decimal([]) == 0;
      assert Digits(n)[..0] == [];
    } else {
      DigitsRead(n / 10);
      assert Digits(n)[..|Digits(n)| - 1] == Digits(n / 10);
    }
  }

  /** The property that a number names is its decimal notation, so that different numbers name different properties. */
  lemma NumberNames(n: int)
    ensures var s := PropertyName(NumberKey(n));
            if n < 0 then s != [] && s[0] == '-' && Decimal(s[1..]) == -n else s != [] && s[0] != '-' && Decimal(s) == n
  {
    hide Digits, Decimal;
    if n < 0 {
      DigitsRead(-n);
      assert PropertyName(NumberKey(n))[1..] == Digits(-n);
    } else {
      DigitsRead(n);
    }
  }
}
