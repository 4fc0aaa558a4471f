/**
 * The token-claim endpoint (server/routes.ts): validation of the request
 * body, the amount to airdrop, the pair of token transfers, and the mapping
 * from what happened to the HTTP status and message.
 *
 * The token's decimals (fetched from a mirror node at start-up) and the
 * result of building, signing and executing the airdrop on the ledger are
 * inputs; the network and the ledger SDK are not modelled.
 */
module ClaimRoute {
  import opened Sequences

  /** A field of the parsed JSON body; `Missing` is an absent field. */
  datatype Json = Missing | Null | Bool(b: bool) | Number(n: real) | Str(s: string) | Other

  datatype ClaimBody = ClaimBody(hederaAccountId: Json, score: Json)

  /** JavaScript's falsy values among JSON fields. */
  predicate Falsy(v: Json) {
    v == Missing || v == Null || v == Bool(false) || v == Number(0.0) || v == Str("")
  }

  /** `\d` without the Unicode flag: an ASCII digit. */
  predicate IsDigit(c: char) {
    '0' <= c <= '9'
  }

  /** A non-empty run of digits: what `\d+` matches. */
  predicate DigitRun(s: string) {
    |s| > 0 && forall k :: 0 <= k < |s| ==> IsDigit(s[k])
  }

  /** Three digit runs joined by dots: the language of `^\d+\.\d+\.\d+$`. */
  ghost predicate AccountIdShape(s: string) {
    exists a, b, c :: DigitRun(a) && DigitRun(b) && DigitRun(c) && s == a + "." + b + "." + c
  }

  /**
   * The matcher for `^\d+\.\d+\.\d+$`: split at the first dot, split the
   * rest at its first dot, and require three digit runs.
   */
  function MatchesAccountId(s: string): bool {
    var i := IndexOf(s, '.');
    if i < 0 then false
    else
      var rest := s[i + 1..];
      var j := IndexOf(rest, '.');
      if j < 0 then false
      else DigitRun(s[..i]) && DigitRun(rest[..j]) && DigitRun(rest[j + 1..])
  }

  /** A digit run holds no dot. */
  lemma DigitRunHasNoDot(s: string)
    requires DigitRun(s)
    ensures '.' !in s
  {
  }

  /** The first dot of `a + "." + t` is the one after `a` when `a` is a digit run. */
  lemma FirstDotAfterRun(a: string, t: string)
    requires DigitRun(a)
    ensures IndexOf(a + "." + t, '.') == |a|
    ensures (a + "." + t)[..|a|] == a && (a + "." + t)[|a| + 1..] == t
  {
    var s := a + "." + t;
    DigitRunHasNoDot(a);
    assert s[..|a|] == a;
    assert s[|a|] == '.';
    var k := IndexOf(s, '.');
    FirstIndexUnique(s, '.', k, |a|);
    assert s[|a| + 1..] == t;
  }

  /** The account-ID check accepts exactly three dot-separated non-empty digit runs. */
  lemma AccountIdMatcherCorrect(s: string)
    ensures MatchesAccountId(s) <==> AccountIdShape(s)
  {
    if MatchesAccountId(s) {
      MatcherSound(s);
    }
    if AccountIdShape(s) {
      var a, b, c :| DigitRun(a) && DigitRun(b) && DigitRun(c) && s == a + "." + b + "." + c;
      MatcherComplete(a, b, c);
    }
  }

  lemma MatcherSound(s: string)
    requires MatchesAccountId(s)
    ensures AccountIdShape(s)
  {
    var i := IndexOf(s, '.');
    var rest := s[i + 1..];
    var j := IndexOf(rest, '.');
    var a, b, c := s[..i], rest[..j], rest[j + 1..];
    assert rest == b + "." + c;
    assert s == a + "." + rest;
    assert s == a + "." + b + "." + c;
  }

  lemma MatcherComplete(a: string, b: string, c: string)
    requires DigitRun(a) && DigitRun(b) && DigitRun(c)
    ensures MatchesAccountId(a + "." + b + "." + c)
  {
    var s := a + "." + b + "." + c;
    assert s == a + "." + (b + "." + c);
    FirstDotAfterRun(a, b + "." + c);
    FirstDotAfterRun(b, c);
  }

  /** The account-ID field is accepted: a truthy string of the right shape. */
  predicate AccountIdAccepted(v: Json) {
    !Falsy(v) && v.Str? && MatchesAccountId(v.s)
  }

  /** The score field is accepted: present, not null, a number, and positive. */
  predicate ScoreAccepted(v: Json) {
    !(v == Missing || v == Null) && v.Number? && !(v.n <= 0.0)
  }

  datatype Rejection = InvalidAccountId | InvalidScore

  datatype Validation = Valid(accountId: string, score: real) | Invalid(reason: Rejection)

  /** The two checks in order: the account ID first, whatever the score, then the score. */
  function Validate(body: ClaimBody): (v: Validation)
    ensures v == Invalid(InvalidAccountId) <==> !AccountIdAccepted(body.hederaAccountId)
    ensures v == Invalid(InvalidScore) <==>
      AccountIdAccepted(body.hederaAccountId) && !ScoreAccepted(body.score)
  {
    if !AccountIdAccepted(body.hederaAccountId) then Invalid(InvalidAccountId)
    else if !ScoreAccepted(body.score) then Invalid(InvalidScore)
    else Valid(body.hederaAccountId.s, body.score.n)
  }

  /**
   * A request is accepted exactly when its account ID is a string of three
   * dot-separated digit runs and its score a positive number.
   */
  lemma ValidateAcceptsExactly(body: ClaimBody)
    ensures Validate(body).Valid? <==>
      && body.hederaAccountId.Str? && AccountIdShape(body.hederaAccountId.s)
      && body.score.Number? && body.score.n > 0.0
    ensures Validate(body).Valid? ==>
      Validate(body) == Valid(body.hederaAccountId.s, body.score.n)
  {
    if body.hederaAccountId.Str? {
      AccountIdMatcherCorrect(body.hederaAccountId.s);
    }
  }

  function Pow10(d: nat): (p: nat)
    ensures p >= 1
  {
    if d == 0 then 1 else 10 * Pow10(d - 1)
  }

  /**
   * The airdrop in the token's smallest unit: the whole part of the score,
   * scaled by the token's decimals. It is the largest multiple of 10^d not
   * above score * 10^d.
   */
  function AmountToTransfer(score: real, decimals: nat): (amount: int)
    requires score > 0.0
    ensures amount >= 0
    ensures amount % Pow10(decimals) == 0
    ensures amount as real <= score * (Pow10(decimals) as real)
    ensures score * (Pow10(decimals) as real) < amount as real + Pow10(decimals) as real
    ensures score < 1.0 <==> amount == 0
  {
    var amountToTransferBase := score.Floor;
    var p := Pow10(decimals);
    var amount := amountToTransferBase * p;
    ScaleFloor(score, p, amount);
    WholeMultiple(amountToTransferBase, p);
    amount
  }

  lemma ScaleFloor(score: real, p: nat, amount: int)
    requires score > 0.0 && p >= 1 && amount == score.Floor * p
    ensures amount as real <= score * (p as real) < amount as real + p as real
  {
    var f := score.Floor;
    IntProductAsReal(f, p);
    ScaleBetween(f as real, score, p as real, amount as real);
  }

  /** Multiplying by a positive `p` keeps the sign, and a whole factor makes a multiple of `p`. */
  lemma WholeMultiple(f: int, p: nat)
    requires f >= 0 && p >= 1
    ensures f * p >= 0 && (f * p) % p == 0
    ensures f * p == 0 <==> f == 0
  {
    ProductSign(f, p);
    ModOfMultiple(f, p);
  }

  lemma ModOfMultiple(f: int, p: int)
    requires p >= 1
    ensures (f * p) % p == 0
  {
    var q := (f * p) / p;
    var rem := (f * p) % p;
    var d := f - q;
    assert d * p == rem by {
      assert d * p == f * p - q * p;
    }
    SmallMultipleIsZero(d, p);
  }

  /** The only multiple of `p` in `[0, p)` is zero. */
  lemma SmallMultipleIsZero(d: int, p: int)
    requires p >= 1 && 0 <= d * p < p
    ensures d == 0
  {
    if d > 0 {
      ProductSign(d, p);
    } else if d < 0 {
      ProductSign(-d, p);
    }
  }

  lemma ProductSign(f: int, p: int)
    requires f >= 0 && p >= 1
    ensures f * p >= 0
    ensures f * p == 0 <==> f == 0
    ensures f > 0 ==> f * p >= p
  {
    if f > 0 {
      assert f * p == (f - 1) * p + p;
    }
  }

  lemma IntProductAsReal(f: int, p: int)
    ensures (f * p) as real == f as real * p as real
  {
  }

  /** Scaling by a factor of at least one keeps `x` between `lo` and `lo + 1` scaled. */
  lemma ScaleBetween(lo: real, x: real, p: real, scaledLo: real)
    requires lo <= x < lo + 1.0 && p >= 1.0 && scaledLo == lo * p
    ensures scaledLo <= x * p < scaledLo + p
  {
    var frac := x - lo;
    assert x * p == lo * p + frac * p;
    ProductBounds(frac, p);
    ShiftBelow(x * p, lo * p, frac * p, p);
  }

  lemma ShiftBelow(whole: real, base: real, part: real, bound: real)
    requires whole == base + part && 0.0 <= part < bound
    ensures base <= whole < base + bound
  {
  }

  /** For `0 <= a < 1` and `b >= 1`, `a * b` lies in `[0, b)`. */
  lemma ProductBounds(a: real, b: real)
    requires 0.0 <= a < 1.0 && b >= 1.0
    ensures 0.0 <= a * b < b
  {
    var rest := 1.0 - a;
    assert rest > 0.0;
    assert b - a * b == rest * b;
    assert rest * b > 0.0;
  }

  /** A score below one passes validation yet airdrops nothing. */
  lemma FractionalScoreAirdropsNothing(body: ClaimBody, decimals: nat)
    requires Validate(body).Valid? && body.score.n < 1.0
    ensures AmountToTransfer(Validate(body).score, decimals) == 0
  {
  }

  datatype Transfer = Transfer(account: string, amount: int)

  function NetAmount(ts: seq<Transfer>): int {
    if |ts| == 0 then 0 else ts[0].amount + NetAmount(ts[1..])
  }

  /** The airdrop's transfer list: the treasury is debited what the recipient is credited. */
  function AirdropTransfers(treasury: string, recipient: string, amount: int): (ts: seq<Transfer>)
    ensures |ts| == 2
    ensures ts[0].account == treasury && ts[1].account == recipient
    ensures ts[1].amount == amount && ts[0].amount == -ts[1].amount
    ensures NetAmount(ts) == 0
  {
    var ts := [Transfer(treasury, -amount), Transfer(recipient, amount)];
    assert NetAmount(ts) == ts[0].amount + NetAmount(ts[1..]);
    assert ts[1..][1..] == [];
    assert NetAmount(ts[1..]) == ts[1].amount + NetAmount(ts[1..][1..]);
    ts
  }

  /** An environment setting; an empty value counts as unset. */
  datatype Setting = Unset | Set(value: string)

  predicate Configured(accountId: Setting, privateKey: Setting) {
    accountId.Set? && accountId.value != "" && privateKey.Set? && privateKey.value != ""
  }

  datatype TxStatus = StatusSuccess | StatusOther(name: string)

  /** How the ledger interaction ended: a receipt, or an error thrown on the way. */
  datatype LedgerOutcome = Receipt(status: TxStatus, transactionId: string) | Thrown(message: string)

  datatype Message =
    | InvalidAccountMessage
    | InvalidScoreMessage
    | ConfigurationErrorMessage
    | Airdropped(tokens: int)
    | AirdropFailed(status: TxStatus)
    | InvalidAccountFormatMessage
    | ProcessingErrorMessage

  datatype Response = Response(status: int, message: Message, transactionId: string)

  /** `p` occurs in `s` starting at `k`. */
  predicate OccursAt(s: string, p: string, k: int) {
    0 <= k && k + |p| <= |s| && s[k..k + |p|] == p
  }

  /** JavaScript's `includes`: does `p` occur anywhere in `s`? */
  function Includes(s: string, p: string): (r: bool)
    ensures r <==> exists k :: OccursAt(s, p, k)
    decreases |s|
  {
    if |s| < |p| then false
    else if s[..|p|] == p then assert OccursAt(s, p, 0); true
    else
      var r := Includes(s[1..], p);
      IncludesStep(s, p);
      r
  }

  lemma IncludesStep(s: string, p: string)
    requires |s| >= |p| && s[..|p|] != p
    ensures (exists k :: OccursAt(s, p, k)) <==> (exists k :: OccursAt(s[1..], p, k))
  {
    if exists k :: OccursAt(s, p, k) {
      var k :| OccursAt(s, p, k);
      assert k != 0;
      assert s[1..][k - 1..k - 1 + |p|] == s[k..k + |p|];
      assert OccursAt(s[1..], p, k - 1);
    }
    if exists k :: OccursAt(s[1..], p, k) {
      var k :| OccursAt(s[1..], p, k);
      assert s[1..][k..k + |p|] == s[k + 1..k + 1 + |p|];
      assert OccursAt(s, p, k + 1);
    }
  }

  const InvalidAccountIdError: string := "Invalid account ID"

  /**
   * The endpoint's response to `body`, given the treasury settings and how
   * the ledger interaction ended.
   */
  function HandleClaim(body: ClaimBody, treasuryId: Setting, treasuryKey: Setting,
                       outcome: LedgerOutcome): (r: Response)
    ensures r.status == 200 || r.status == 400 || r.status == 500
    ensures r.status == 200 <==>
      Validate(body).Valid? && Configured(treasuryId, treasuryKey) && outcome.Receipt?
      && outcome.status == StatusSuccess
    ensures r.status == 200 ==>
      r.message == Airdropped(body.score.n.Floor) && r.transactionId == outcome.transactionId
    ensures !AccountIdAccepted(body.hederaAccountId) ==> r == Response(400, InvalidAccountMessage, "")
    ensures Validate(body) == Invalid(InvalidScore) ==> r == Response(400, InvalidScoreMessage, "")
    ensures Validate(body).Valid? && !Configured(treasuryId, treasuryKey) ==>
      r == Response(500, ConfigurationErrorMessage, "")
    ensures Validate(body).Valid? && Configured(treasuryId, treasuryKey) && outcome.Receipt?
            && outcome.status != StatusSuccess ==>
      r == Response(500, AirdropFailed(outcome.status), "")
    ensures r.status == 400 <==>
      Validate(body).Invalid?
      || (Configured(treasuryId, treasuryKey) && outcome.Thrown?
          && exists k :: OccursAt(outcome.message, InvalidAccountIdError, k))
  {
    match Validate(body)
    case Invalid(InvalidAccountId) => Response(400, InvalidAccountMessage, "")
    case Invalid(InvalidScore) => Response(400, InvalidScoreMessage, "")
    case Valid(accountId, score) =>
      if !Configured(treasuryId, treasuryKey) then Response(500, ConfigurationErrorMessage, "")
      else
        match outcome
        case Receipt(status, transactionId) =>
          if status == StatusSuccess then Response(200, Airdropped(score.Floor), transactionId)
          else Response(500, AirdropFailed(status), "")
        case Thrown(message) =>
          if message != "" && Includes(message, InvalidAccountIdError)
          then Response(400, InvalidAccountFormatMessage, "")
          else Response(500, ProcessingErrorMessage, "")
  }
}
