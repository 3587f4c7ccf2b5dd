/**
 The coupon table and the validator in front of it (internal/repository/coupon.go and
 internal/domain/coupon/validator.go).

 The database may refuse a statement, or carry it out and still report an error; both are
 parameters here.
 */
module Validator {
  import opened Common
  import opened Discount

  datatype Row = Row(active: bool, rule: Rule)

  /** Keyed by the coupon code exactly as stored, the primary key. */
  type Table = map<string, Row>

  /** How a write ends: carried out, refused, or carried out with the answer lost. */
  datatype Write = Done | Refused | AnswerLost

  function Applied(w: Write): bool { w != Refused }

  function UpperChar(c: char): char {
    if 'a' <= c <= 'z' then c - 'a' + 'A' else c
  }

  function Upper(s: string): string {
    seq(|s|, i requires 0 <= i < |s| => UpperChar(s[i]))
  }

  predicate WellKeyed(table: Table) {
    forall k | k in table :: table[k].rule.code == k
  }

  /** The rows the case-insensitive query selects. */
  function Matches(table: Table, code: string): set<string> {
    set k | k in table && table[k].active && Upper(k) == Upper(code)
  }

  /** The lookup gives the rule of `k`: the one active row whose code matches up to case. */
  predicate Finds(table: Table, code: string, k: string) {
    Matches(table, code) == {k}
  }

  /** The update compares codes exactly; without a matching row it changes nothing. */
  function Bumped(table: Table, code: string): Table {
    if code in table
    then table[code := table[code].(rule := table[code].rule.(uses := table[code].rule.uses + 1))]
    else table
  }

  /** The checks between lookup and increment, on the rule as it was read. */
  function Admit(rule: Rule, now: int, items: seq<Item>): Result<Discount, Error> {
    if rule.validFrom.Some? && now < rule.validFrom.value then Err(Expired)
    else if rule.validUntil.Some? && now > rule.validUntil.value then Err(Expired)
    else if rule.maxUses > 0 && rule.uses >= rule.maxUses then Err(UsageLimitReached)
    else Apply(rule, items)
  }

  /** A lookup the database does not refuse: exactly one matching row, or an error. */
  function Lookup(table: Table, code: string): Result<Rule, Error> {
    if Matches(table, code) == {} then Err(InvalidCoupon)
    else if k :| k in table && Finds(table, code, k) then Ok(table[k].rule)
    else Err(LookupFailed)
  }

  /** What one validation returns, and the table it leaves, when no other one runs. */
  function Validated(table: Table, code: string, now: int, items: seq<Item>, refused: bool, w: Write)
    : (Result<Discount, Error>, Table)
  {
    var found := if refused then Err(LookupFailed) else Lookup(table, code);
    if found.Err? then (Err(found.error), table)
    else
      var admitted := Admit(found.value, now, items);
      if admitted.Err? then (admitted, table)
      else (if w == Done then admitted else Err(IncrementFailed), if Applied(w) then Bumped(table, code) else table)
  }

  class CouponRepository {
    var table: Table

    ghost predicate Valid()
      reads this
    {
      WellKeyed(table)
    }

    method FindByCode(code: string, refused: bool) returns (r: Result<Rule, Error>)
      ensures r == if refused then Err(LookupFailed) else Lookup(table, code)
    {
      if refused {
        return Err(LookupFailed);
      }
      var rows := Matches(table, code);
      if |rows| == 0 {
        return Err(InvalidCoupon);
      }
      var k :| k in rows;
      if rows == {k} {
        return Ok(table[k].rule);
      }
      r := Err(LookupFailed);
    }

    method IncrementUses(code: string, w: Write) returns (failed: bool)
      requires Valid()
      modifies this
      ensures Valid()
      ensures table == if Applied(w) then Bumped(old(table), code) else old(table)
      ensures failed == (w != Done)
    {
      if Applied(w) && code in table {
        var row := table[code];
        table := table[code := row.(rule := row.rule.(uses := row.rule.uses + 1))];
      }
      failed := w != Done;
    }
  }

  class RepoValidator {
    const repo: CouponRepository

    constructor (repo: CouponRepository)
      ensures this.repo == repo
    {
      this.repo := repo;
    }

    method Validate(code: string, now: int, items: seq<Item>, refused: bool, w: Write)
      returns (r: Result<Discount, Error>)
      requires repo.Valid()
      modifies repo
      ensures repo.Valid()
      ensures (r, repo.table) == Validated(old(repo.table), code, now, items, refused, w)
    {
      var found := repo.FindByCode(code, refused);
      if found.Err? {
        return Err(found.error);
      }
      var rule := found.value;
      if rule.validFrom.Some? && now < rule.validFrom.value {
        return Err(Expired);
      }
      if rule.validUntil.Some? && now > rule.validUntil.value {
        return Err(Expired);
      }
      if rule.maxUses > 0 && rule.uses >= rule.maxUses {
        return Err(UsageLimitReached);
      }
      var d := ApplyRule(rule, items);
      if d.Err? {
        return d;
      }
      var failed := repo.IncrementUses(code, w);
      if failed {
        return Err(IncrementFailed);
      }
      r := d;
    }
  }

  // ---------------------------------------------------------------- what a validation does to the counter

  function Uses(table: Table, k: string): int
    requires k in table
  {
    table[k].rule.uses
  }

  /**
   One validation run on its own: an accepted one counts one use of the row whose code it spells
   exactly, any other row's counter stays, and a coupon with a limit is never counted past it
   when its code is spelled as stored.
   */
  lemma ValidationCounts(table: Table, code: string, now: int, items: seq<Item>, refused: bool, w: Write, k: string)
    requires WellKeyed(table) && k in table
    ensures var (r, after) := Validated(table, code, now, items, refused, w);
            && WellKeyed(after) && k in after
            && after[k].(rule := after[k].rule.(uses := Uses(table, k))) == table[k]
            && Uses(after, k) - Uses(table, k) in {0, 1}
            && (r.Ok? && code == k ==> Uses(after, k) == Uses(table, k) + 1)
            && (code != k ==> Uses(after, k) == Uses(table, k))
            && (Finds(table, code, k) && table[k].rule.maxUses > 0 && Uses(table, k) <= table[k].rule.maxUses
                ==> Uses(after, k) <= table[k].rule.maxUses)
  {
    if Finds(table, code, k) { assert Lookup(table, code) == Ok(table[k].rule); }
  }

  // ---------------------------------------------------------------- which row a code finds

  /** The same letter in either case, or the same character. */
  predicate SameLetter(c: char, d: char) {
    || c == d
    || ('A' <= c <= 'Z' && d as int == c as int + 32)
    || ('A' <= d <= 'Z' && c as int == d as int + 32)
  }

  predicate SameIgnoringCase(s: string, t: string) {
    |s| == |t| && forall i | 0 <= i < |s| :: SameLetter(s[i], t[i])
  }

  /** `UPPER` identifies exactly the spellings that differ in the case of letters only. */
  lemma UpperIgnoresCase(s: string, t: string)
    ensures Upper(s) == Upper(t) <==> SameIgnoringCase(s, t)
  {
    if Upper(s) == Upper(t) {
      assert |Upper(s)| == |s| && |Upper(t)| == |t|;
      forall i | 0 <= i < |s| ensures SameLetter(s[i], t[i]) {
        assert Upper(s)[i] == UpperChar(s[i]) && Upper(t)[i] == UpperChar(t[i]);
      }
    }
  }

  /** The row is active, and its code is the given one up to case. */
  predicate Answers(table: Table, code: string, k: string) {
    k in table && table[k].active && SameIgnoringCase(k, code)
  }

  /**
   A lookup finds a rule exactly when one row answers, and then that row's rule; no row makes the
   coupon invalid, and several make the lookup fail.
   */
  lemma LookupExactly(table: Table, code: string)
    ensures Lookup(table, code) == Err(InvalidCoupon) <==> forall k | k in table :: !Answers(table, code, k)
    ensures forall k | Answers(table, code, k) ::
              Lookup(table, code) == Ok(table[k].rule) || Lookup(table, code) == Err(LookupFailed)
    ensures Lookup(table, code) == Err(LookupFailed)
       <==> exists j, k :: j != k && Answers(table, code, j) && Answers(table, code, k)
  {
    forall k | k in table ensures k in Matches(table, code) <==> Answers(table, code, k) { UpperIgnoresCase(k, code); }
    if j, k :| j != k && Answers(table, code, j) && Answers(table, code, k) {
      assert j in Matches(table, code) && k in Matches(table, code);
    } else if k :| Answers(table, code, k) {
      assert Matches(table, code) == {k};
      assert Finds(table, code, k);
    }
  }

  // ---------------------------------------------------------------- when a validation accepts

  predicate Running(rule: Rule, now: int) {
    && (rule.validFrom.Some? ==> rule.validFrom.value <= now)
    && (rule.validUntil.Some? ==> now <= rule.validUntil.value)
  }

  predicate UsedUp(rule: Rule) {
    0 < rule.maxUses <= rule.uses
  }

  predicate Acceptable(table: Table, code: string, now: int, items: seq<Item>, refused: bool) {
    && !refused && Lookup(table, code).Ok?
    && var rule := Lookup(table, code).value;
    && Running(rule, now) && !UsedUp(rule) && Apply(rule, items).Ok?
  }

  lemma AdmitsExactly(rule: Rule, now: int, items: seq<Item>)
    ensures Admit(rule, now, items).Ok? <==> Running(rule, now) && !UsedUp(rule) && Apply(rule, items).Ok?
  {
  }

  /** The answer of a validation, error by error. */
  lemma ValidatedExactly(table: Table, code: string, now: int, items: seq<Item>, refused: bool, w: Write)
    ensures var r := Validated(table, code, now, items, refused, w).0;
            var found := if refused then Err(LookupFailed) else Lookup(table, code);
            && (found.Err? ==> r == Err(found.error))
            && (r == Err(Expired) <==> found.Ok? && !Running(found.value, now))
            && (r == Err(UsageLimitReached) <==> found.Ok? && Running(found.value, now) && UsedUp(found.value))
            && (r.Ok? <==> Acceptable(table, code, now, items, refused) && w == Done)
            && (r == Err(IncrementFailed) <==> Acceptable(table, code, now, items, refused) && w != Done)
            && (found.Ok? && Running(found.value, now) && !UsedUp(found.value) ==>
                  r == Apply(found.value, items) || r == Err(IncrementFailed))
  {
  }

  /** The table it leaves: one use more on the row of exactly that code, if the increment was carried out. */
  lemma ValidatedTable(table: Table, code: string, now: int, items: seq<Item>, refused: bool, w: Write)
    ensures var (_, after) := Validated(table, code, now, items, refused, w);
            && after.Keys == table.Keys
            && (forall k | k in table && k != code :: after[k] == table[k])
            && (code in table ==>
                  && after[code].active == table[code].active
                  && after[code].rule == table[code].rule.(uses := after[code].rule.uses)
                  && after[code].rule.uses - table[code].rule.uses
                     == if Acceptable(table, code, now, items, refused) && w != Refused then 1 else 0)
  {
  }
}
