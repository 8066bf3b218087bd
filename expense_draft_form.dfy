/**
 * The manual expense form (components/expenses/ExpenseDraftForm.tsx): the
 * participant list with its paid and owed amounts, the split helpers that
 * rewrite it, the category picked for a parsed receipt, and the checks made
 * before the draft is written.
 */
module ExpenseDraftForm {
  import opened Common
  import opened Text
  import opened Calendar
  import opened Amounts
  import opened MerchantRules
  import opened Drafts

  // ---------------------------------------------------------------------------
  // The participant list and the operations that rewrite it

  /** One participant per group member, paying and owing nothing yet. */
  function InitialParticipants(members: seq<string>): (r: seq<Participant>)
    ensures |r| == |members|
    ensures forall i :: 0 <= i < |r| ==> r[i] == Participant(members[i], Value(0.0), Value(0.0))
  {
    seq(|members|, i requires 0 <= i < |members| => Participant(members[i], Value(0.0), Value(0.0)))
  }

  /** `amountValue / members.length`, with NaN read as 0 and no members giving 0. */
  function Share(amount: Amount, count: nat): real {
    if count > 0 then OrZero(amount) / count as real else 0.0
  }

  /** `p.user_id === currentUserId`: never true while there is no current user. */
  predicate IsCurrent(p: Participant, current: Option<string>) {
    current == Some(p.userId)
  }

  /**
   * The auto-split effect's rewrite: everyone owes the share, the current user has
   * paid the whole amount, and everyone else's paid amount is left as it was.
   */
  function AutoSplitList(ps: seq<Participant>, amount: Amount, count: nat, current: Option<string>): (r: seq<Participant>)
    ensures |r| == |ps|
    ensures forall i :: 0 <= i < |ps| ==>
      r[i] == Participant(ps[i].userId, if IsCurrent(ps[i], current) then Value(OrZero(amount)) else ps[i].paid,
                          Value(Share(amount, count)))
  {
    seq(|ps|, i requires 0 <= i < |ps| =>
      Participant(ps[i].userId, if IsCurrent(ps[i], current) then Value(OrZero(amount)) else ps[i].paid,
                  Value(Share(amount, count))))
  }

  /** "Split equally": every owed amount becomes the share; paid amounts are untouched. */
  function SplitOwed(ps: seq<Participant>, share: real): (r: seq<Participant>)
    ensures |r| == |ps|
    ensures forall i :: 0 <= i < |ps| ==> r[i] == ps[i].(owed := Value(share))
  {
    seq(|ps|, i requires 0 <= i < |ps| => ps[i].(owed := Value(share)))
  }

  /** "Paid by me": the current user has paid the amount and everyone else nothing; owed is untouched. */
  function PaidByList(ps: seq<Participant>, amountValue: real, current: string): (r: seq<Participant>)
    ensures |r| == |ps|
    ensures forall i :: 0 <= i < |ps| ==>
      r[i] == ps[i].(paid := if ps[i].userId == current then Value(amountValue) else Value(0.0))
  {
    seq(|ps|, i requires 0 <= i < |ps| =>
      ps[i].(paid := if ps[i].userId == current then Value(amountValue) else Value(0.0)))
  }

  /** Which amount a participant input edits. */
  datatype Field = PaidField | OwedField

  /** `updateParticipant`: the named field of every entry for that user takes the value; nothing else moves. */
  function UpdatedList(ps: seq<Participant>, userId: string, field: Field, value: Amount): (r: seq<Participant>)
    ensures |r| == |ps|
    ensures forall i :: 0 <= i < |ps| && ps[i].userId != userId ==> r[i] == ps[i]
    ensures forall i :: 0 <= i < |ps| && ps[i].userId == userId ==>
      r[i].userId == userId
      && (if field == PaidField then r[i].paid == value && r[i].owed == ps[i].owed
          else r[i].owed == value && r[i].paid == ps[i].paid)
  {
    seq(|ps|, i requires 0 <= i < |ps| =>
      if ps[i].userId != userId then ps[i]
      else if field == PaidField then ps[i].(paid := value)
      else ps[i].(owed := value))
  }

  // ---------------------------------------------------------------------------
  // What the totals come to after a split

  /** How many entries belong to `userId`. */
  function CountOf(ps: seq<Participant>, userId: string): nat {
    if ps == [] then 0
    else CountOf(ps[..|ps| - 1], userId) + (if ps[|ps| - 1].userId == userId then 1 else 0)
  }

  predicate DistinctUsers(ps: seq<Participant>) {
    forall i, j :: 0 <= i < j < |ps| ==> ps[i].userId != ps[j].userId
  }

  /** A user who appears once in a list of distinct users is counted once. */
  lemma {:induction false} CountOfDistinct(ps: seq<Participant>, userId: string)
    requires DistinctUsers(ps)
    ensures CountOf(ps, userId) == if exists i :: 0 <= i < |ps| && ps[i].userId == userId then 1 else 0
  {
    if ps != [] {
      var front := ps[..|ps| - 1];
      assert DistinctUsers(front);
      CountOfDistinct(front, userId);
      if ps[|ps| - 1].userId == userId {
        assert !exists i :: 0 <= i < |front| && front[i].userId == userId;
      } else if exists i :: 0 <= i < |ps| && ps[i].userId == userId {
        var i :| 0 <= i < |ps| && ps[i].userId == userId;
        assert front[i].userId == userId;
      }
    }
  }

  /** When everyone owes the same share, the owed total is the share times the head count. */
  lemma {:induction false} OwedTotalOfShares(ps: seq<Participant>, share: real)
    requires forall i :: 0 <= i < |ps| ==> ps[i].owed == Value(share)
    ensures OwedTotal(ps) == |ps| as real * share
  {
    if ps != [] {
      OwedTotalOfShares(ps[..|ps| - 1], share);
    }
  }

  /** When one user has paid `amount` per entry and everyone else nothing, the paid total counts that user's entries. */
  lemma {:induction false} PaidTotalOfOnePayer(ps: seq<Participant>, userId: string, amount: real)
    requires forall i :: 0 <= i < |ps| ==> ps[i].paid == if ps[i].userId == userId then Value(amount) else Value(0.0)
    ensures PaidTotal(ps) == CountOf(ps, userId) as real * amount
  {
    if ps != [] {
      PaidTotalOfOnePayer(ps[..|ps| - 1], userId, amount);
    }
  }

  /** A share of the amount per member adds back up to the amount. */
  lemma SharesAddUp(amount: Amount, count: nat)
    requires count > 0
    ensures count as real * Share(amount, count) == OrZero(amount)
  {
  }

  /**
   * Freshly loaded members split automatically balance: the paid total and the
   * owed total both come to the amount (NaN read as 0) when the current user is
   * one of the members.
   */
  lemma AutoSplitBalances(members: seq<string>, amount: Amount, userId: string)
    requires userId in members
    requires forall i, j :: 0 <= i < j < |members| ==> members[i] != members[j]
    ensures var ps := AutoSplitList(InitialParticipants(members), amount, |members|, Some(userId));
            PaidTotal(ps) == OrZero(amount) && OwedTotal(ps) == OrZero(amount)
  {
    AutoSplitPaidTotal(members, amount, userId);
    AutoSplitOwedTotal(members, amount, userId);
  }

  /** The current user pays the whole amount in an automatic split of distinct members. */
  lemma AutoSplitPaidTotal(members: seq<string>, amount: Amount, userId: string)
    requires userId in members
    requires forall i, j :: 0 <= i < j < |members| ==> members[i] != members[j]
    ensures PaidTotal(AutoSplitList(InitialParticipants(members), amount, |members|, Some(userId))) == OrZero(amount)
  {
    var ps := AutoSplitList(InitialParticipants(members), amount, |members|, Some(userId));
    var k :| 0 <= k < |members| && members[k] == userId;
    assert ps[k].userId == userId;
    assert DistinctUsers(ps);
    CountOfDistinct(ps, userId);
    PaidTotalOfOnePayer(ps, userId, OrZero(amount));
  }

  /** Everyone owes one share in an automatic split, so the owed total is the amount. */
  lemma AutoSplitOwedTotal(members: seq<string>, amount: Amount, userId: string)
    requires members != []
    ensures OwedTotal(AutoSplitList(InitialParticipants(members), amount, |members|, Some(userId))) == OrZero(amount)
  {
    var ps := AutoSplitList(InitialParticipants(members), amount, |members|, Some(userId));
    OwedTotalOfShares(ps, Share(amount, |members|));
    SharesAddUp(amount, |members|);
  }

  /**
   * Whatever was typed before, "Split equally" followed by "Paid by me" balances a
   * list with one entry per member, the current user among them.
   */
  lemma SplitThenPaidByMeBalances(ps: seq<Participant>, amount: Amount, userId: string)
    requires DistinctUsers(ps)
    requires exists i :: 0 <= i < |ps| && ps[i].userId == userId
    ensures var r := PaidByList(SplitOwed(ps, Share(amount, |ps|)), OrZero(amount), userId);
            PaidTotal(r) == OrZero(amount) && OwedTotal(r) == OrZero(amount)
  {
    var share := Share(amount, |ps|);
    var s := SplitOwed(ps, share);
    var r := PaidByList(s, OrZero(amount), userId);
    SplitKeepsUsers(ps, share, userId);
    PaidByOneTotal(s, OrZero(amount), userId);
    SplitOwedTotal(ps, amount, OrZero(amount), userId);
  }

  /** After "Split equally" the owed total is the amount, whoever is then marked as the payer. */
  lemma SplitOwedTotal(ps: seq<Participant>, amount: Amount, paid: real, userId: string)
    requires ps != []
    ensures OwedTotal(PaidByList(SplitOwed(ps, Share(amount, |ps|)), paid, userId)) == OrZero(amount)
  {
    var share := Share(amount, |ps|);
    var r := PaidByList(SplitOwed(ps, share), paid, userId);
    OwedTotalOfShares(r, share);
    SharesAddUp(amount, |ps|);
  }

  /** Splitting the owed amounts keeps the users, so they stay distinct and the current user stays in. */
  lemma SplitKeepsUsers(ps: seq<Participant>, share: real, userId: string)
    requires DistinctUsers(ps)
    requires exists i :: 0 <= i < |ps| && ps[i].userId == userId
    ensures DistinctUsers(SplitOwed(ps, share))
    ensures exists i :: 0 <= i < |ps| && SplitOwed(ps, share)[i].userId == userId
  {
    var s := SplitOwed(ps, share);
    var k :| 0 <= k < |ps| && ps[k].userId == userId;
    assert s[k].userId == userId;
  }

  /** "Paid by me" on a list of distinct users, the current user among them, makes the paid total the amount. */
  lemma PaidByOneTotal(ps: seq<Participant>, amountValue: real, userId: string)
    requires DistinctUsers(ps)
    requires exists i :: 0 <= i < |ps| && ps[i].userId == userId
    ensures PaidTotal(PaidByList(ps, amountValue, userId)) == amountValue
  {
    var r := PaidByList(ps, amountValue, userId);
    assert DistinctUsers(r) by {
      forall i, j | 0 <= i < j < |r| ensures r[i].userId != r[j].userId {
        assert r[i].userId == ps[i].userId && r[j].userId == ps[j].userId;
      }
    }
    var k :| 0 <= k < |ps| && ps[k].userId == userId;
    assert r[k].userId == userId;
    CountOfDistinct(r, userId);
    PaidTotalOfOnePayer(r, userId, amountValue);
  }

  // ---------------------------------------------------------------------------
  // Submitting

  const InvalidAmount := "Please enter a valid amount"
  const PaidMismatch := "Paid total must equal the expense amount."
  const OwedMismatch := "Owed total must equal the expense amount."

  /** What a submission leads to: a message, the sign-in page, or the draft to insert. */
  datatype SubmitOutcome = Refused(message: string) | SignIn | Save(draft: ExpenseDraft)

  /** `Math.abs(total - amount) > 0.01`. */
  predicate OffBy(total: real, amount: real) { Abs(total - amount) > 0.01 }

  /** The manual draft: the user chose the category, empty texts are stored as null. */
  function ManualDraft(groupId: string, userId: string, amount: real, merchant: string, date: string,
                       read: DateReader, budgetImpact: bool, category: string, ps: seq<Participant>,
                       notes: string): ExpenseDraft {
    ExpenseDraft(groupId, userId, amount, if merchant != "" then Some(merchant) else None, date,
                 PeriodKeyOf(date, read), budgetImpact, if category != "" then Some(category) else None,
                 UserSource, ps, ManualEntry, if notes != "" then Some(notes) else None)
  }

  /**
   * `handleSubmit` without the receipt upload: a NaN or non-positive amount is
   * refused first, then a missing user is sent to sign in, then the paid total and
   * then the owed total must each lie within 0.01 of the amount.
   */
  function Submission(amount: Amount, user: Option<string>, ps: seq<Participant>, groupId: string,
                      merchant: string, date: string, read: DateReader, budgetImpact: bool,
                      category: string, notes: string): (r: SubmitOutcome)
    ensures (amount.NaN? || amount.value <= 0.0) ==> r == Refused(InvalidAmount)
    ensures (amount.Value? && amount.value > 0.0 && user.None?) ==> r == SignIn
    ensures (amount.Value? && amount.value > 0.0 && user.Some? && OffBy(PaidTotal(ps), amount.value))
            ==> r == Refused(PaidMismatch)
    ensures (amount.Value? && amount.value > 0.0 && user.Some? && !OffBy(PaidTotal(ps), amount.value)
             && OffBy(OwedTotal(ps), amount.value)) ==> r == Refused(OwedMismatch)
    ensures r.Save? <==> amount.Value? && amount.value > 0.0 && user.Some?
                         && !OffBy(PaidTotal(ps), amount.value) && !OffBy(OwedTotal(ps), amount.value)
    ensures r.Save? ==> r.draft.amount == amount.value && r.draft.createdBy == user.value
                        && r.draft.participants == ps && r.draft.source == ManualEntry
                        && r.draft.categorySource == UserSource && r.draft.periodKey == PeriodKeyOf(date, read)
  {
    if amount.NaN? || amount.value <= 0.0 then Refused(InvalidAmount)
    else if user.None? then SignIn
    else if OffBy(PaidTotal(ps), amount.value) then Refused(PaidMismatch)
    else if OffBy(OwedTotal(ps), amount.value) then Refused(OwedMismatch)
    else Save(ManualDraft(groupId, user.value, amount.value, merchant, date, read, budgetImpact, category, ps, notes))
  }

  /** A freshly split draft with a valid amount passes both total checks and is saved. */
  lemma AutoSplitIsAccepted(members: seq<string>, amount: real, userId: string, groupId: string,
                            merchant: string, date: string, read: DateReader, budgetImpact: bool,
                            category: string, notes: string)
    requires amount > 0.0
    requires userId in members
    requires forall i, j :: 0 <= i < j < |members| ==> members[i] != members[j]
    ensures Submission(Value(amount), Some(userId), AutoSplitList(InitialParticipants(members), Value(amount), |members|, Some(userId)),
                       groupId, merchant, date, read, budgetImpact, category, notes).Save?
  {
    AutoSplitBalances(members, Value(amount), userId);
  }

  /** Without a current user the auto split leaves every paid amount at 0, so a positive amount is refused. */
  lemma AutoSplitWithoutUserIsRefused(members: seq<string>, amount: real, groupId: string,
                                      merchant: string, date: string, read: DateReader, budgetImpact: bool,
                                      category: string, notes: string)
    requires amount > 0.01
    ensures Submission(Value(amount), Some(""), AutoSplitList(InitialParticipants(members), Value(amount), |members|, None),
                       groupId, merchant, date, read, budgetImpact, category, notes) == Refused(PaidMismatch)
  {
    var ps := AutoSplitList(InitialParticipants(members), Value(amount), |members|, None);
    NobodyPaid(ps);
    assert OffBy(PaidTotal(ps), amount);
  }

  /** When nobody has paid anything, the paid total is 0. */
  lemma {:induction false} NobodyPaid(ps: seq<Participant>)
    requires forall i :: 0 <= i < |ps| ==> ps[i].paid == Value(0.0)
    ensures PaidTotal(ps) == 0.0
  {
    if ps != [] {
      NobodyPaid(ps[..|ps| - 1]);
    }
  }

  // ---------------------------------------------------------------------------
  // The category of a parsed receipt

  /**
   * The form loads its rules as stored: `match_text` is not normalised, and a null
   * one is read as "" (which `applyMerchantRules` skips).
   */
  function FormRules(stored: seq<StoredRule>): (r: seq<MerchantRule>)
    ensures |r| == |stored|
    ensures forall i :: 0 <= i < |r| ==>
      r[i] == MerchantRule(match stored[i].matchText case None => "" case Some(t) => t, stored[i].category, stored[i].isRegex)
  {
    seq(|stored|, i requires 0 <= i < |stored| =>
      MerchantRule(match stored[i].matchText case None => "" case Some(t) => t, stored[i].category, stored[i].isRegex))
  }

  /**
   * `ruleCategory || categorizeMerchant(merchant)`: the first matching rule's
   * category, unless no rule matches or its category is empty, in which case the
   * built-in table decides.
   */
  function ReceiptCategory(merchant: string, rules: seq<MerchantRule>, engine: RegexEngine): string {
    match ApplyMerchantRules(merchant, rules, engine)
    case Some(c) => if c != "" then c else CategorizeMerchant(merchant)
    case None => CategorizeMerchant(merchant)
  }

  /**
   * The receipt category is the category of the first user rule that matches, when
   * it is not empty; otherwise it is the built-in table's answer.
   */
  lemma ReceiptCategoryChoice(merchant: string, rules: seq<MerchantRule>, engine: RegexEngine)
    ensures var r := ReceiptCategory(merchant, rules, engine);
      (r in BuiltInCategories && r == CategorizeMerchant(merchant))
      || exists i :: FirstMatchAt(rules, i, merchant, NormalizeMerchantKey(merchant), engine) && r == rules[i].category && r != ""
    ensures (forall i :: 0 <= i < |rules| ==> !RuleMatches(rules[i], merchant, NormalizeMerchantKey(merchant), engine))
            ==> ReceiptCategory(merchant, rules, engine) == CategorizeMerchant(merchant)
    ensures forall i :: (FirstMatchAt(rules, i, merchant, NormalizeMerchantKey(merchant), engine) && rules[i].category != "")
              ==> ReceiptCategory(merchant, rules, engine) == rules[i].category
  {
    var key := NormalizeMerchantKey(merchant);
    forall i, j | FirstMatchAt(rules, i, merchant, key, engine) && FirstMatchAt(rules, j, merchant, key, engine)
      ensures i == j
    {
    }
  }

  /**
   * Because the form does not normalise stored rules, a literal rule holding a
   * capital letter can never match here: the merchant key it is looked for in has
   * none. (The import form normalises the same rule on load.)
   */
  lemma CapitalisedLiteralNeverMatches(merchant: string, text: string, category: string, engine: RegexEngine)
    requires exists i :: 0 <= i < |text| && IsUpperLetter(text[i])
    ensures !RuleMatches(MerchantRule(text, category, false), merchant, NormalizeMerchantKey(merchant), engine)
  {
    FoundInKeyHasNoCapital(NormalizeMerchantKey(merchant), text);
  }

  /** Whatever a normalised key contains has no capital letter. */
  lemma FoundInKeyHasNoCapital(key: string, text: string)
    requires IsNormalizedKey(key)
    ensures Contains(key, text) ==> forall i :: 0 <= i < |text| ==> !IsUpperLetter(text[i])
  {
    ContainsIff(key, text);
    if exists k :: OccursAt(key, text, k) {
      var k :| OccursAt(key, text, k);
      forall i | 0 <= i < |text| ensures !IsUpperLetter(text[i]) {
        assert text[i] == key[k..k + |text|][i] == key[k + i];
        assert KeyChar(key[k + i]);
      }
    }
  }

  /** What the receipt parser answered, as the form reads it. */
  datatype ReceiptReply =
    | NoFile
    | ParserError(error: string)
    | ParserThrew
      /** A parsed receipt; 0, "" and "" stand for a missing (falsy) amount, merchant and date. */
    | ReceiptFields(amount: real, merchant: string, date: string)

  const ReceiptUnreadable := "Unable to parse receipt."
  const ReceiptParsed := "Receipt parsed. Review and save as a draft."

  // ---------------------------------------------------------------------------
  // The form state

  class DraftForm {
    /** The group's members, by user id. */
    var members: seq<string>
    var participants: seq<Participant>
    var currentUserId: Option<string>
    var autoSplit: bool
    /** `parseFloat` of the amount input. */
    var amount: Amount
    var merchant: string
    var date: string
    var category: string
    var budgetImpact: bool
    var notes: string
    var rules: seq<MerchantRule>
    var receiptMessage: Option<string>

    /** The form as first shown; `today` is the date the clock gives. */
    constructor(today: string)
      ensures members == [] && participants == [] && currentUserId == None && autoSplit
      ensures amount == NaN && merchant == "" && date == today && category == "" && !budgetImpact && notes == ""
      ensures rules == [] && receiptMessage == None
    {
      members := [];
      participants := [];
      currentUserId := None;
      autoSplit := true;
      amount := NaN;
      merchant := "";
      date := today;
      category := "";
      budgetImpact := false;
      notes := "";
      rules := [];
      receiptMessage := None;
    }

    /** `loadMembers`: with a signed-in user, one participant per member row (no rows read as none). */
    method LoadMembers(user: Option<string>, rows: Option<seq<string>>)
      modifies this`currentUserId, this`members, this`participants
      ensures user.None? ==> currentUserId == old(currentUserId) && members == old(members) && participants == old(participants)
      ensures user.Some? ==> currentUserId == user && members == (if rows.Some? then rows.value else [])
                             && participants == InitialParticipants(members)
    {
      if user.None? {
        return;
      }
      currentUserId := user;
      members := if rows.Some? then rows.value else [];
      participants := InitialParticipants(members);
    }

    /** `loadRules`: with a signed-in user, the user's stored rules, as they are. */
    method LoadRules(user: Option<string>, data: Option<seq<StoredRule>>)
      modifies this`rules
      ensures user.None? ==> rules == old(rules)
      ensures user.Some? ==> rules == FormRules(if data.Some? then data.value else [])
    {
      if user.Some? {
        rules := FormRules(if data.Some? then data.value else []);
      }
    }

    /** The amount input changed; the number it reads as is given. */
    method SetAmount(value: Amount)
      modifies this`amount
      ensures amount == value
    {
      amount := value;
    }

    /**
     * The auto-split effect, run after the amount, the members, the flag or the
     * current user change: nothing happens unless auto split is on and there are members.
     */
    method AutoSplitEffect()
      modifies this`participants
      ensures !autoSplit || members == [] ==> participants == old(participants)
      ensures autoSplit && members != [] ==> participants == AutoSplitList(old(participants), amount, |members|, currentUserId)
    {
      if !autoSplit || |members| == 0 {
        return;
      }
      participants := AutoSplitList(participants, amount, |members|, currentUserId);
    }

    method UpdateParticipant(userId: string, field: Field, value: Amount)
      modifies this`participants
      ensures participants == UpdatedList(old(participants), userId, field, value)
    {
      participants := UpdatedList(participants, userId, field, value);
    }

    /** `handleSplitEqually`: a no-op without members; otherwise auto split is switched on and owed amounts are reset. */
    method SplitEqually()
      modifies this`autoSplit, this`participants
      ensures members == [] ==> autoSplit == old(autoSplit) && participants == old(participants)
      ensures members != [] ==> autoSplit && participants == SplitOwed(old(participants), Share(amount, |members|))
    {
      if |members| == 0 {
        return;
      }
      autoSplit := true;
      participants := SplitOwed(participants, Share(amount, |members|));
    }

    /** `handlePaidByMe`: a no-op without a (non-empty) current user. */
    method PaidByMe()
      modifies this`participants
      ensures (currentUserId.None? || currentUserId.value == "") ==> participants == old(participants)
      ensures (currentUserId.Some? && currentUserId.value != "")
              ==> participants == PaidByList(old(participants), OrZero(amount), currentUserId.value)
    {
      if currentUserId.None? || currentUserId.value == "" {
        return;
      }
      participants := PaidByList(participants, OrZero(amount), currentUserId.value);
    }

    /**
     * `handleReceiptChange` once the parser has answered: a found amount, merchant
     * and date are copied in, the merchant also choosing the category, and the
     * message says how it went.
     */
    method ReceiptChange(reply: ReceiptReply, engine: RegexEngine)
      modifies this`amount, this`merchant, this`category, this`date, this`receiptMessage
      ensures reply.NoFile? ==> receiptMessage == None
      ensures reply.ParserError? ==> receiptMessage == Some(if reply.error != "" then reply.error else ReceiptUnreadable)
      ensures reply.ParserThrew? ==> receiptMessage == Some(ReceiptUnreadable)
      ensures !reply.ReceiptFields? ==> amount == old(amount) && merchant == old(merchant)
                                        && category == old(category) && date == old(date)
      ensures reply.ReceiptFields? ==>
        receiptMessage == Some(ReceiptParsed)
        && amount == (if reply.amount != 0.0 then Value(reply.amount) else old(amount))
        && merchant == (if reply.merchant != "" then reply.merchant else old(merchant))
        && category == (if reply.merchant != "" then ReceiptCategory(reply.merchant, rules, engine) else old(category))
        && date == (if reply.date != "" then reply.date else old(date))
    {
      if reply.NoFile? {
        receiptMessage := None;
      } else if reply.ParserError? {
        receiptMessage := Some(if reply.error != "" then reply.error else ReceiptUnreadable);
      } else if reply.ParserThrew? {
        receiptMessage := Some(ReceiptUnreadable);
      } else {
        ApplyReceipt(reply.amount, reply.merchant, reply.date, engine);
      }
    }

    /** The fields of a parsed receipt that are present replace the form's. */
    method ApplyReceipt(a: real, m: string, d: string, engine: RegexEngine)
      modifies this`amount, this`merchant, this`category, this`date, this`receiptMessage
      ensures receiptMessage == Some(ReceiptParsed)
      ensures amount == (if a != 0.0 then Value(a) else old(amount))
      ensures merchant == (if m != "" then m else old(merchant))
      ensures category == (if m != "" then ReceiptCategory(m, old(rules), engine) else old(category))
      ensures date == (if d != "" then d else old(date))
    {
      if m != "" {
        category := ReceiptCategory(m, rules, engine);
      }
      amount := if a != 0.0 then Value(a) else amount;
      merchant := if m != "" then m else merchant;
      date := if d != "" then d else date;
      receiptMessage := Some(ReceiptParsed);
    }

    /** `handleSubmit` up to the insert, for the signed-in user (if any) the service reports. */
    method Submit(user: Option<string>, groupId: string, read: DateReader) returns (outcome: SubmitOutcome)
      ensures outcome == Submission(amount, user, participants, groupId, merchant, date, read, budgetImpact, category, notes)
    {
      outcome := Submission(amount, user, participants, groupId, merchant, date, read, budgetImpact, category, notes);
    }
  }
}
