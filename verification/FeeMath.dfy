/** Money arithmetic for invoices. Amounts are whole kobo, so they add up exactly. */
module FeeMath {
  import opened Wrappers

  datatype FeeStatus = UNPAID | PARTIAL | PAID | WAIVED | CANCELLED

  /** What is owed after any discount, never below zero. */
  function Payable(total: int, discount: int): nat {
    if total - discount < 0 then 0 else total - discount
  }

  /** What is still outstanding; an overpayment is not a debt. */
  function Balance(total: int, discount: int, paid: int): nat {
    var remaining := Payable(total, discount) - paid;
    if remaining < 0 then 0 else remaining
  }

  /** The part of an overpayment that `Balance` floors away. */
  function Overpaid(total: int, discount: int, paid: int): nat {
    var excess := paid - Payable(total, discount);
    if excess < 0 then 0 else excess
  }

  /** WAIVED and CANCELLED are decisions a person makes; the rest follows the money. */
  function DeriveStatus(total: int, discount: int, paid: int, current: Option<FeeStatus>): FeeStatus {
    if current == Some(WAIVED) || current == Some(CANCELLED) then current.value
    else
      var due := Payable(total, discount);
      if due == 0 then PAID
      else if paid >= due then PAID
      else if paid > 0 then PARTIAL
      else UNPAID
  }

  predicate Owing(status: FeeStatus) { status == UNPAID || status == PARTIAL }

  /** The debtor definition by status agrees with the money, for any derived status. */
  lemma OwingIffBalance(total: int, discount: int, paid: int)
    requires paid >= 0
    ensures Owing(DeriveStatus(total, discount, paid, None)) <==> Balance(total, discount, paid) > 0
  {
  }

  /** What is owed, what is still owed, and the status: closed stays closed, and the rest goes by the money. */
  lemma MoneyExactly(total: int, discount: int, paid: int, current: Option<FeeStatus>)
    ensures var due := if discount < total then total - discount else 0;
      var status := DeriveStatus(total, discount, paid, current);
      && Payable(total, discount) == due
      && Balance(total, discount, paid) == (if paid < due then due - paid else 0)
      && (current == Some(WAIVED) || current == Some(CANCELLED) ==> Some(status) == current)
      && (current != Some(WAIVED) && current != Some(CANCELLED) ==>
            && (status == PAID <==> due == 0 || due <= paid)
            && (status == PARTIAL <==> 0 < paid && paid < due)
            && (status == UNPAID <==> paid <= 0 && 0 < due))
  {
  }
}
