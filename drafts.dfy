/**
 * The expense draft record every entry route (manual form, statement import,
 * voice) writes to `expense_drafts`, and its participant list.
 */
module Drafts {
  import opened Common

  /** A JavaScript number as the forms hold it: NaN, or a finite value. */
  datatype Amount = NaN | Value(value: real)

  /** `isNaN(x) ? 0 : x`. */
  function OrZero(a: Amount): real {
    match a
    case NaN => 0.0
    case Value(v) => v
  }

  /** One member's share of an expense. */
  datatype Participant = Participant(userId: string, paid: Amount, owed: Amount)

  /** Who chose the draft's category: a saved merchant rule, or the user (also the default). */
  datatype CategorySource = RuleSource | UserSource

  /** The route that created the draft. */
  datatype DraftSource = ManualEntry | ImportEntry | VoiceEntry

  /** A row of `expense_drafts` as the client inserts it; its status is always `draft`. */
  datatype ExpenseDraft = ExpenseDraft(
    groupId: string,
    createdBy: string,
    amount: real,
    merchant: Option<string>,
    date: string,
    periodKey: string,
    budgetImpact: bool,
    category: Option<string>,
    categorySource: CategorySource,
    participants: seq<Participant>,
    source: DraftSource,
    notes: Option<string>)

  /** `participants.reduce((sum, p) => sum + (isNaN(p.paid_amount) ? 0 : p.paid_amount), 0)`. */
  function PaidTotal(ps: seq<Participant>): real {
    if ps == [] then 0.0 else PaidTotal(ps[..|ps| - 1]) + OrZero(ps[|ps| - 1].paid)
  }

  /** The same reduction over the owed amounts. */
  function OwedTotal(ps: seq<Participant>): real {
    if ps == [] then 0.0 else OwedTotal(ps[..|ps| - 1]) + OrZero(ps[|ps| - 1].owed)
  }

  /** The participant list of an imported or voice draft: the creator pays and owes it all. */
  function SoleParticipant(userId: string, amount: real): (r: seq<Participant>)
    ensures |r| == 1 && r[0].userId == userId
  {
    [Participant(userId, Value(amount), Value(amount))]
  }

  /** A sole participant's paid and owed totals both equal the amount. */
  lemma SoleParticipantBalanced(userId: string, amount: real)
    ensures PaidTotal(SoleParticipant(userId, amount)) == amount
    ensures OwedTotal(SoleParticipant(userId, amount)) == amount
  {
    var ps := SoleParticipant(userId, amount);
    assert ps[..0] == [];
  }

  /** The totals add up over a split list. */
  lemma {:induction false} TotalsAppend(a: seq<Participant>, b: seq<Participant>)
    ensures PaidTotal(a + b) == PaidTotal(a) + PaidTotal(b)
    ensures OwedTotal(a + b) == OwedTotal(a) + OwedTotal(b)
    decreases |b|
  {
    if b == [] {
      assert a + b == a;
    } else {
      assert (a + b)[..|a + b| - 1] == a + b[..|b| - 1];
      TotalsAppend(a, b[..|b| - 1]);
    }
  }
}
