/**
 * The voice entry form (components/expenses/VoiceDraftForm.tsx): the amount and
 * merchant read from a transcript, the draft written from them, the file
 * extension chosen for a recording and the byte copy of decoded audio.
 */
module VoiceDraft {
  import opened Common
  import opened Text
  import opened Calendar
  import opened Amounts
  import opened Drafts

  // ---------------------------------------------------------------------------
  // The amount: the first match of /(\d+(?:\.\d{1,2})?)/

  predicate NoDigit(s: string) {
    forall i :: 0 <= i < |s| ==> !IsDigit(s[i])
  }

  /** The position of the first digit at or after `i`. */
  function FirstDigitFrom(s: string, i: nat): (r: Option<nat>)
    requires i <= |s|
    ensures r.None? <==> forall k :: i <= k < |s| ==> !IsDigit(s[k])
    ensures r.Some? ==> i <= r.value < |s| && IsDigit(s[r.value])
                        && forall k :: i <= k < r.value ==> !IsDigit(s[k])
    decreases |s| - i
  {
    if i == |s| then None
    else if IsDigit(s[i]) then Some(i)
    else FirstDigitFrom(s, i + 1)
  }

  /** The number the pattern finds: its digits before and after the point (at most two after). */
  datatype NumberMatch = NumberMatch(start: nat, whole: string, frac: string)

  /** At most two digits after a point, when a digit follows the point. */
  function Fraction(rest: string): (r: string)
    ensures AllDigits(r) && |r| <= 2
    ensures r != [] ==> |rest| > |r| && rest[0] == '.' && rest[1..|r| + 1] == r
    ensures (|rest| >= 2 && rest[0] == '.' && IsDigit(rest[1])) <==> r != []
    ensures |r| == 1 ==> |rest| == 2 || !IsDigit(rest[2])
  {
    if |rest| >= 2 && rest[0] == '.' && IsDigit(rest[1]) then
      if |rest| >= 3 && IsDigit(rest[2]) then rest[1..3] else rest[1..2]
    else ""
  }

  /** The leftmost match: the run of digits at the first digit, and its fraction. */
  function FindNumber(text: string): (r: Option<NumberMatch>)
    ensures r.None? <==> NoDigit(text)
    ensures r.Some? ==> r.value.start < |text| && r.value.whole != [] && AllDigits(r.value.whole)
                        && r.value.whole == DigitPrefix(text[r.value.start..])
                        && NoDigit(text[..r.value.start])
                        && r.value.frac == Fraction(text[r.value.start + |r.value.whole|..])
  {
    match FirstDigitFrom(text, 0)
    case None => None
    case Some(k) =>
      var whole := DigitPrefix(text[k..]);
      assert NoDigit(text[..k]) by {
        forall i | 0 <= i < k ensures !IsDigit(text[..k][i]) { assert text[..k][i] == text[i]; }
      }
      Some(NumberMatch(k, whole, Fraction(text[k + |whole|..])))
  }

  /** `parseVoiceText`'s amount: `parseFloat` of the match, or 0 when the text has no digit. */
  function VoiceAmount(text: string): (r: real)
    ensures r >= 0.0
    ensures NoDigit(text) ==> r == 0.0
  {
    match FindNumber(text)
    case None => 0.0
    case Some(m) => DigitsValue(m.whole) as real + Scaled(DigitsValue(m.frac) as real, |m.frac|)
  }

  /**
   * A price said as `n.cc` after words without digits is read exactly, whatever
   * follows it: the pattern takes at most two decimals.
   */
  lemma VoiceAmountOfMoney(pre: string, n: nat, cents: nat, post: string)
    requires cents < 100 && NoDigit(pre)
    ensures VoiceAmount(pre + Money(n, cents) + post) == n as real + cents as real / 100.0
  {
    var text := pre + Money(n, cents) + post;
    var digits := NatToString(n);
    var cc := [DigitChar(cents / 10), DigitChar(cents % 10)];
    assert text == pre + digits + ("." + cc + post);
    CentsNumberMatch(pre, digits, cc, post);
    CentsMatchValue(text);
    NatToStringRoundTrip(n);
    TwoDigitsValue(cents);
  }

  /** Digits after a digit-free prefix, then a point and two digits, are the match with those decimals. */
  lemma CentsNumberMatch(pre: string, digits: string, cc: string, post: string)
    requires NoDigit(pre) && digits != [] && AllDigits(digits)
    requires |cc| == 2 && AllDigits(cc)
    ensures FindNumber(pre + digits + ("." + cc + post)) == Some(NumberMatch(|pre|, digits, cc))
  {
    var rest := "." + cc + post;
    var text := pre + digits + rest;
    assert text == pre + (digits + rest);
    FindNumberAt(pre, digits, rest);
    assert text[|pre| + |digits|..] == rest;
    FractionOfCents(cc, post);
  }

  /** A point and two digits give those two digits as the decimals, whatever follows. */
  lemma FractionOfCents(cc: string, post: string)
    requires |cc| == 2 && AllDigits(cc)
    ensures Fraction("." + cc + post) == cc
  {
    var rest := "." + cc + post;
    assert rest[0] == '.' && rest[1] == cc[0] && rest[2] == cc[1];
    assert rest[1..3] == cc;
  }

  /** A match with two decimals is worth its whole digits plus the decimals in hundredths. */
  lemma CentsMatchValue(text: string)
    requires FindNumber(text).Some? && |FindNumber(text).value.frac| == 2
    ensures VoiceAmount(text) == DigitsValue(FindNumber(text).value.whole) as real
                                 + DigitsValue(FindNumber(text).value.frac) as real / 100.0
  {
    var f := DigitsValue(FindNumber(text).value.frac) as real;
    ScaledTwice(f);
  }

  /** A whole number of units, not followed by a point and a digit, is read as that number. */
  lemma VoiceAmountOfWhole(pre: string, n: nat, post: string)
    requires NoDigit(pre)
    requires post == [] || !IsDigit(post[0])
    requires !(|post| >= 2 && post[0] == '.' && IsDigit(post[1]))
    ensures VoiceAmount(pre + NatToString(n) + post) == n as real
  {
    var digits := NatToString(n);
    var text := pre + digits + post;
    WholeNumberMatch(pre, digits, post);
    WholeMatchValue(text);
    NatToStringRoundTrip(n);
  }

  /** Digits after a digit-free prefix, followed by no decimals, are the whole match. */
  lemma WholeNumberMatch(pre: string, digits: string, post: string)
    requires NoDigit(pre) && digits != [] && AllDigits(digits)
    requires post == [] || !IsDigit(post[0])
    requires !(|post| >= 2 && post[0] == '.' && IsDigit(post[1]))
    ensures FindNumber(pre + digits + post) == Some(NumberMatch(|pre|, digits, ""))
  {
    var text := pre + digits + post;
    assert text == pre + (digits + post);
    FindNumberAt(pre, digits, post);
    assert text[|pre| + |digits|..] == post;
  }

  /** A match without decimals is worth its whole digits. */
  lemma WholeMatchValue(text: string)
    requires FindNumber(text).Some? && FindNumber(text).value.frac == ""
    ensures VoiceAmount(text) == DigitsValue(FindNumber(text).value.whole) as real
  {
  }

  /** The match starts where the digits after a digit-free prefix start, and takes all of them. */
  lemma FindNumberAt(pre: string, digits: string, rest: string)
    requires NoDigit(pre) && digits != [] && AllDigits(digits)
    requires rest == [] || !IsDigit(rest[0])
    ensures FindNumber(pre + (digits + rest)).Some?
    ensures FindNumber(pre + (digits + rest)).value.start == |pre|
    ensures FindNumber(pre + (digits + rest)).value.whole == digits
  {
    var text := pre + (digits + rest);
    var m := FindNumber(text).value;
    assert forall k :: 0 <= k < |pre| ==> text[k] == pre[k];
    assert forall k :: 0 <= k < m.start ==> text[..m.start][k] == text[k];
    assert IsDigit(text[|pre|]);
    assert IsDigit(text[m.start]) by {
      assert m.whole[0] == text[m.start..][0] == text[m.start];
    }
    assert text[|pre|..] == digits + rest;
    DigitRunEnds(digits, rest);
  }

  // ---------------------------------------------------------------------------
  // The merchant: the text after the first /\bat\s+(.+)$/i

  /** "at" in any case, starting a word, at position `p`. */
  predicate AtWord(text: string, p: int) {
    0 <= p && p + 2 <= |text| && Lower(text[p]) == 'a' && Lower(text[p + 1]) == 't'
    && (p == 0 || !IsWordChar(text[p - 1]))
  }

  /**
   * The pattern matches at `p` with the merchant starting at `j`: white space from
   * `p + 2` up to `j` (at least one), then one or more characters, none of them a
   * line terminator, up to the end.
   */
  predicate AtSplit(text: string, p: int, j: int) {
    AtWord(text, p) && p + 2 < j < |text|
    && (forall k :: p + 2 <= k < j ==> IsSpace(text[k]))
    && (forall k :: j <= k < |text| ==> !IsLineTerminator(text[k]))
  }

  /** The largest merchant start for "at" at `p`, trying `j` and below (the greedy `\s+`). */
  function LastSplit(text: string, p: int, j: int): (r: Option<int>)
    ensures r.None? ==> forall k :: k <= j ==> !AtSplit(text, p, k)
    ensures r.Some? ==> r.value <= j && AtSplit(text, p, r.value) && forall k :: r.value < k <= j ==> !AtSplit(text, p, k)
    decreases j - p
  {
    if j <= p + 2 then None
    else if AtSplit(text, p, j) then Some(j)
    else LastSplit(text, p, j - 1)
  }

  /** The capture of the leftmost match at or after `p`. */
  function AtGroupFrom(text: string, p: nat): (r: Option<int>)
    ensures r.None? ==> forall q, k :: p <= q ==> !AtSplit(text, q, k)
    ensures r.Some? ==> exists q :: p <= q && AtSplit(text, q, r.value)
                           && (forall k :: r.value < k ==> !AtSplit(text, q, k))
                           && (forall q', k :: p <= q' < q ==> !AtSplit(text, q', k))
    decreases |text| - p
  {
    if p >= |text| then None
    else
      match LastSplit(text, p, |text| - 1)
      case Some(j) => Some(j)
      case None => AtGroupFrom(text, p + 1)
  }

  /** `parseVoiceText`'s merchant: the trimmed capture, else the whole text; empty becomes null. */
  function VoiceMerchant(text: string): (r: Option<string>)
    ensures r.Some? ==> r.value != ""
    ensures (forall q, k :: !AtSplit(text, q, k)) ==> r == (if text == "" then None else Some(text))
  {
    var merchant := match AtGroupFrom(text, 0) case Some(j) => Trim(text[j..]) case None => text;
    if merchant == "" then None else Some(merchant)
  }

  /**
   * "... at Name": when no earlier "at" matches, a word "at" followed by one space
   * and a name starting with a non-space and holding no line break gives the name.
   */
  lemma MerchantAfterAt(pre: string, at: string, name: string)
    requires |at| == 2 && Lower(at[0]) == 'a' && Lower(at[1]) == 't'
    requires pre == [] || !IsWordChar(pre[|pre| - 1])
    requires name != [] && !IsSpace(name[0])
    requires forall k :: 0 <= k < |name| ==> !IsLineTerminator(name[k])
    requires forall q, k :: 0 <= q < |pre| ==> !AtSplit(pre + at + " " + name, q, k)
    ensures VoiceMerchant(pre + at + " " + name) == Some(Trim(name))
  {
    var text := pre + at + " " + name;
    var p := |pre|;
    assert text[p] == at[0] && text[p + 1] == at[1] && text[p + 2] == ' ';
    assert p > 0 ==> text[p - 1] == pre[p - 1];
    assert text[p + 3..] == name;
    assert AtSplit(text, p, p + 3) by {
      forall k | p + 3 <= k < |text| ensures !IsLineTerminator(text[k]) { assert text[k] == name[k - p - 3]; }
    }
    forall k | p + 3 < k ensures !AtSplit(text, p, k) {
      assert text[p + 3] == name[0];
    }
    var r := AtGroupFrom(text, 0);
    assert r.Some?;
    var q :| 0 <= q && AtSplit(text, q, r.value) && (forall k :: r.value < k ==> !AtSplit(text, q, k))
             && (forall q', k :: 0 <= q' < q ==> !AtSplit(text, q', k));
    assert q == p;
    assert r.value == p + 3;
    TrimKeepsLeadingText(name);
  }

  /** Trimming text that starts with a non-space leaves it non-empty. */
  lemma TrimKeepsLeadingText(s: string)
    requires s != [] && !IsSpace(s[0])
    ensures Trim(s) != ""
  {
    assert TrimStart(s) == s;
  }

  // ---------------------------------------------------------------------------
  // The draft

  const NeedAmount := "Please include a valid amount in the text."

  datatype VoiceOutcome = Refused(message: string) | SignIn | Save(draft: ExpenseDraft)

  /**
   * `createExpenseFromText` up to the insert: a transcript without a positive amount
   * is refused before anything else; without a user the page goes to sign in;
   * otherwise the draft has the speaker as sole participant, affects the budget,
   * has no category and keeps the transcript as its notes.
   */
  function CreateFromText(text: string, user: Option<string>, groupId: string, today: string,
                          read: DateReader): (r: VoiceOutcome)
    ensures VoiceAmount(text) <= 0.0 ==> r == Refused(NeedAmount)
    ensures VoiceAmount(text) > 0.0 && user.None? ==> r == SignIn
    ensures r.Save? <==> VoiceAmount(text) > 0.0 && user.Some?
    ensures r.Save? ==>
      var d := r.draft;
      d.amount == VoiceAmount(text) > 0.0 && d.createdBy == user.value && d.groupId == groupId
      && d.participants == SoleParticipant(user.value, d.amount)
      && d.budgetImpact && d.category == None && d.source == VoiceEntry && d.categorySource == UserSource
      && d.merchant == VoiceMerchant(text) && d.date == today && d.periodKey == PeriodKeyOf(today, read)
      && d.notes == (if text == "" then None else Some(text))
  {
    var amount := VoiceAmount(text);
    if amount <= 0.0 then Refused(NeedAmount)
    else if user.None? then SignIn
    else Save(ExpenseDraft(groupId, user.value, amount, VoiceMerchant(text), today, PeriodKeyOf(today, read),
                           true, None, UserSource, SoleParticipant(user.value, amount), VoiceEntry,
                           if text == "" then None else Some(text)))
  }

  /** A saved voice draft is balanced: its one participant has paid and owes the whole amount. */
  lemma VoiceDraftBalanced(text: string, user: Option<string>, groupId: string, today: string, read: DateReader)
    requires CreateFromText(text, user, groupId, today, read).Save?
    ensures var d := CreateFromText(text, user, groupId, today, read).draft;
            PaidTotal(d.participants) == d.amount && OwedTotal(d.participants) == d.amount
  {
    var d := CreateFromText(text, user, groupId, today, read).draft;
    SoleParticipantBalanced(user.value, d.amount);
  }

  /** A transcript with no digit is always refused. */
  lemma NoDigitIsRefused(text: string, user: Option<string>, groupId: string, today: string, read: DateReader)
    requires NoDigit(text)
    ensures CreateFromText(text, user, groupId, today, read) == Refused(NeedAmount)
  {
  }

  // ---------------------------------------------------------------------------
  // Recording files

  /** `fileExtensionForMime`: tested for "aac", then "mp4", then "ogg"; anything else is webm. */
  function FileExtensionForMime(mime: string): (r: string)
    ensures r in ["aac", "m4a", "ogg", "webm"]
    ensures Contains(mime, "aac") ==> r == "aac"
    ensures !Contains(mime, "aac") && Contains(mime, "mp4") ==> r == "m4a"
    ensures !Contains(mime, "aac") && !Contains(mime, "mp4") && Contains(mime, "ogg") ==> r == "ogg"
    ensures r == "webm" <==> !Contains(mime, "aac") && !Contains(mime, "mp4") && !Contains(mime, "ogg")
  {
    if Contains(mime, "aac") then "aac"
    else if Contains(mime, "mp4") then "m4a"
    else if Contains(mime, "ogg") then "ogg"
    else "webm"
  }

  /** The recorder's own MIME candidates get the extensions of their containers. */
  lemma RecorderCandidatesExtensions()
    ensures FileExtensionForMime("audio/mp4") == "m4a"
    ensures FileExtensionForMime("audio/webm;codecs=opus") == "webm"
    ensures FileExtensionForMime("audio/ogg") == "ogg"
    ensures FileExtensionForMime("") == "webm"
  {
    Mp4Candidate();
    WebmCandidate("audio/webm;codecs=opus");
    OggCandidate();
  }

  lemma Mp4Candidate()
    ensures FileExtensionForMime("audio/mp4") == "m4a"
  {
    ContainsAt("audio/mp4", "mp4", 6);
    NotContainedChar("audio/mp4", "aac", 2);
  }

  lemma WebmCandidate(mime: string)
    requires mime == "audio/webm;codecs=opus"
    ensures FileExtensionForMime(mime) == "webm"
  {
    NotContainedChar(mime, "aac", 1);
    NotContainedChar(mime, "mp4", 2);
    NotContainedChar(mime, "ogg", 1);
  }

  lemma OggCandidate()
    ensures FileExtensionForMime("audio/ogg") == "ogg"
  {
    ContainsAt("audio/ogg", "ogg", 6);
    NotContainedChar("audio/ogg", "aac", 2);
    NotContainedChar("audio/ogg", "mp4", 0);
  }

  // ---------------------------------------------------------------------------
  // base64ToBlob's byte copy

  type Byte = x: int | 0 <= x < 256

  /** What a `Uint8Array` stores for each character code: the code modulo 256. */
  function ByteValues(binary: string): (r: seq<Byte>)
    ensures |r| == |binary|
    ensures forall i :: 0 <= i < |binary| ==> r[i] == binary[i] as int % 256
  {
    seq(|binary|, i requires 0 <= i < |binary| => binary[i] as int % 256)
  }

  /** The characters with the given codes. */
  function CharsOf(bytes: seq<Byte>): (r: string)
    ensures |r| == |bytes|
    ensures forall i :: 0 <= i < |bytes| ==> r[i] as int == bytes[i]
  {
    seq(|bytes|, i requires 0 <= i < |bytes| => bytes[i] as char)
  }

  /** `atob` only produces codes below 256, and for such text the copy loses nothing. */
  lemma Latin1RoundTrip(binary: string)
    requires forall i :: 0 <= i < |binary| ==> binary[i] as int < 256
    ensures CharsOf(ByteValues(binary)) == binary
  {
  }

  /** The copy loop of `base64ToBlob`, given the decoded string. */
  method DecodedBytes(binary: string) returns (bytes: array<Byte>)
    ensures fresh(bytes)
    ensures bytes[..] == ByteValues(binary)
  {
    bytes := new Byte[|binary|];
    var i := 0;
    while i < |binary|
      invariant 0 <= i <= |binary|
      invariant forall k :: 0 <= k < i ==> bytes[k] == binary[k] as int % 256
    {
      bytes[i] := binary[i] as int % 256;
      i := i + 1;
    }
  }
}
