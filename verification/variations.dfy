/** The sign convention of the ledger: the debit/credit meaning of a signed
    amount booked on an Origin or a Destination account. Amounts are whole
    cents, since the stored decimals have exactly two fractional digits. */
module Variations {

  /** The two account types, stored as the letters 'O' and 'D'. */
  datatype AccountType = Origin | Destination

  /** The two derived variation types, 'debit' and 'credit'. */
  datatype VariationType = Debit | Credit

  /** The other account type. */
  function OtherAccountType(t: AccountType): (r: AccountType)
    ensures r != t
  {
    if t == Origin then Destination else Origin
  }

  /** The other variation type. */
  function OtherType(t: VariationType): (r: VariationType)
    ensures r != t
  {
    if t == Debit then Credit else Debit
  }

  /** A variation: one signed movement of `amount` cents against account
      `account` inside one record. `accountType` is the type of that account,
      which is what `self.account.type` reads. */
  datatype Variation = Variation(id: int, account: nat, accountType: AccountType, amount: int)
  {
    /** The derived type of this variation. */
    function Type(): (r: VariationType)
      ensures r == Debit <==> (accountType == Destination <==> IsIncrease(amount))
    {
      TypeOf(accountType, amount)
    }
  }

  /** True when the amount counts as an increase of the account: strictly
      positive. Zero is a decrease. */
  predicate IsIncrease(amount: int)
  {
    amount > 0
  }

  /** The four-row table: an increase of an Origin account is a credit, a
      decrease a debit; an increase of a Destination account is a debit, a
      decrease a credit. */
  function TypeOf(accountType: AccountType, amount: int): (r: VariationType)
    ensures r == Debit <==> (accountType == Destination <==> IsIncrease(amount))
  {
    match (accountType, IsIncrease(amount))
    case (Origin, true) => Credit
    case (Origin, false) => Debit
    case (Destination, true) => Debit
    case (Destination, false) => Credit
  }

  /** Each row of the table, as a separate fact about `TypeOf`. */
  lemma TypeTable(amount: int)
    ensures amount > 0 ==> TypeOf(Origin, amount) == Credit && TypeOf(Destination, amount) == Debit
    ensures amount <= 0 ==> TypeOf(Origin, amount) == Debit && TypeOf(Destination, amount) == Credit
  {
  }

  /** For a nonzero amount, negating it flips the derived type. */
  lemma NegationFlipsType(accountType: AccountType, amount: int)
    requires amount != 0
    ensures TypeOf(accountType, -amount) == OtherType(TypeOf(accountType, amount))
  {
  }

  /** Whatever the amount, switching the account type flips the derived type. */
  lemma AccountTypeFlipsType(accountType: AccountType, amount: int)
    ensures TypeOf(OtherAccountType(accountType), amount) == OtherType(TypeOf(accountType, amount))
  {
  }

  /** A zero amount is classed as a decrease: a debit on an Origin account and
      a credit on a Destination account, exactly as a negative amount. */
  lemma ZeroIsDecrease(accountType: AccountType, amount: int)
    requires amount < 0
    ensures TypeOf(accountType, 0) == TypeOf(accountType, amount)
  {
  }
}
