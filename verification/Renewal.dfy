/** Certificate renewal (core/certificate-manager): a daily job selects certificates by their
    remaining milliseconds, and the queued job then decides again by truncated days. */
module Renewal {

  import opened Common

  const DAY: int := 24 * 60 * 60 * 1000
  const MINIMUM_RENEWAL_DAYS := 10

  /** When a certificate is valid, in milliseconds. */
  datatype Validity = Validity(from: int, to: int)

  function Max(a: real, b: real): real {
    if a < b then b else a
  }

  /** A difference in whole days, truncated towards zero. */
  function TruncatedDays(ms: int): int {
    if ms >= 0 then ms / DAY else -((-ms) / DAY)
  }

  function Lifetime(v: Validity): int {
    v.to - v.from
  }

  /** A share of a length of time. */
  function Share(length: int, ratio: real): real {
    length as real * ratio
  }

  // ---------------------------------------------------------------- the two tests

  /** The test of `findRenewCerts`, in milliseconds. */
  predicate Selected(v: Validity, ratio: real, now: int) {
    (v.to - now) as real <= Max(Share(Lifetime(v), ratio), (MINIMUM_RENEWAL_DAYS * DAY) as real)
  }

  /** The test of `createOrRenewCert`, in truncated days: the certificate is renewed. */
  predicate Due(v: Validity, ratio: real, now: int) {
    !(TruncatedDays(v.to - now) as real
      > Max(Share(TruncatedDays(Lifetime(v)), ratio), MINIMUM_RENEWAL_DAYS as real))
  }

  /** One over the ratio is a whole number. */
  ghost predicate WholeFraction(ratio: real) {
    exists k: nat :: OneOver(ratio, k)
  }

  ghost predicate OneOver(ratio: real, k: nat) {
    ratio * k as real == 1.0
  }

  // ---------------------------------------------------------------- what the tests say

  /** So many whole days, towards zero, of 86 400 000 milliseconds. */
  ghost predicate WholeDays(ms: int, days: int) {
    if ms >= 0 then days * 86_400_000 <= ms < (days + 1) * 86_400_000
    else (days - 1) * 86_400_000 < ms <= days * 86_400_000
  }

  /** A certificate is selected exactly when ten days of its life are left at most, or no more than
      its share; nothing with a longer rest is. */
  lemma SelectedExactlyWhen(v: Validity, ratio: real, now: int)
    ensures Selected(v, ratio, now)
       <==> v.to - now <= 864_000_000 || (v.to - now) as real <= (v.to - v.from) as real * ratio
  {
  }

  /** It is due exactly when the whole days left are ten at most, that is when less than eleven days
      are left, or are no more than the share of its whole days. */
  lemma DueExactlyWhen(v: Validity, ratio: real, now: int, left: int, life: int)
    requires WholeDays(v.to - now, left) && WholeDays(v.to - v.from, life)
    ensures Due(v, ratio, now) <==> left <= 10 || left as real <= life as real * ratio
    ensures left <= 10 <==> v.to - now < 950_400_000
  {
    DaysBound(v.to - now);
    DaysBound(Lifetime(v));
    assert left == TruncatedDays(v.to - now);
    assert life == TruncatedDays(Lifetime(v));
  }

  lemma DaysBound(ms: int)
    ensures ms >= 0 ==> TruncatedDays(ms) >= 0 && TruncatedDays(ms) * DAY <= ms < (TruncatedDays(ms) + 1) * DAY
    ensures ms < 0 ==> TruncatedDays(ms) <= 0 && (TruncatedDays(ms) - 1) * DAY < ms <= TruncatedDays(ms) * DAY
  {
  }

  lemma TruncatedDaysMonotone(a: int, b: int)
    requires a <= b
    ensures TruncatedDays(a) <= TruncatedDays(b)
  {
    DaysBound(a);
    DaysBound(b);
  }

  /** Once selected, always selected, and once due, always due. */
  lemma TestsAreMonotone(v: Validity, ratio: real, now: int, later: int)
    requires now <= later
    ensures Selected(v, ratio, now) ==> Selected(v, ratio, later)
    ensures Due(v, ratio, now) ==> Due(v, ratio, later)
  {
    TruncatedDaysMonotone(v.to - later, v.to - now);
  }

  // ---------------------------------------------------------------- arithmetic of shares

  lemma ShareGrows(a: int, b: int, ratio: real)
    requires ratio > 0.0 && a < b
    ensures Share(a, ratio) < Share(b, ratio)
  {
    Product(b as real - a as real, ratio);
    assert Share(b, ratio) - Share(a, ratio) == (b as real - a as real) * ratio;
  }

  lemma Product(x: real, y: real)
    requires x > 0.0 && y > 0.0
    ensures x * y > 0.0
  {
  }

  lemma SharePositive(a: int, ratio: real)
    requires ratio > 0.0 && Share(a, ratio) > 0.0
    ensures a > 0
  {
    if a < 0 { ShareGrows(a, 0, ratio); }
  }

  lemma ShareOfDays(days: int, ratio: real)
    ensures Share((days + 1) * DAY, ratio) == (Share(days, ratio) + ratio) * DAY as real
  {
    var d := days as real;
    assert ((days + 1) * DAY) as real == (d + 1.0) * DAY as real;
    assert (d + 1.0) * ratio == d * ratio + ratio;
  }

  /** With a ratio of one over k, a share is compared by multiplying with k. */
  lemma WholeShare(a: int, b: int, ratio: real, k: nat)
    requires ratio > 0.0 && OneOver(ratio, k)
    ensures a as real <= Share(b, ratio) <==> a * k <= b
  {
    var n := k as real;
    assert (a * k) as real == a as real * n;
    WholeShareReal(a as real, b as real, ratio, n);
  }

  lemma WholeShareReal(x: real, y: real, ratio: real, n: real)
    requires ratio > 0.0 && ratio * n == 1.0 && n >= 0.0
    ensures x <= y * ratio <==> x * n <= y
  {
    if x <= y * ratio { Stretch(x, y * ratio, n); assert y * ratio * n == y * (ratio * n); }
    if x * n <= y { Stretch(x * n, y, ratio); assert x * n * ratio == x * (ratio * n); }
  }

  lemma Stretch(a: real, b: real, factor: real)
    requires a <= b && factor >= 0.0
    ensures a * factor <= b * factor
  {
  }

  lemma StretchStrictly(a: real, b: real, factor: real)
    requires a < b && factor > 0.0
    ensures a * factor < b * factor
  {
    Product(b - a, factor);
  }

  lemma Distribute(j: int, p: int, f: real)
    ensures j as real * (p as real + f) == (j * p) as real + j as real * f
    ensures (j - 1) as real * f == j as real * f - f
  {
    assert (j * p) as real == j as real * p as real;
  }

  lemma ScaledDays(rem: int, life: int, k: nat)
    requires 0 <= rem && rem * k <= life
    ensures TruncatedDays(rem) * k <= TruncatedDays(life)
  {
    var d, l := TruncatedDays(rem), TruncatedDays(life);
    DaysBound(rem);
    hide TruncatedDays;
    IntStretch(d * DAY, rem, k);
    IntStretch(0, rem, k);
    DaysBound(life);
    assert (d * k) * DAY == d * DAY * k;
  }

  lemma IntStretch(a: int, b: int, k: nat)
    requires a <= b
    ensures a * k <= b * k
  {
  }

  // ---------------------------------------------------------------- the tests agree

  /** With a ratio of one over a whole number, a selected certificate is due at once. */
  lemma SelectedIsDue(v: Validity, ratio: real, k: nat, now: int)
    requires ratio > 0.0 && OneOver(ratio, k) && Selected(v, ratio, now)
    ensures Due(v, ratio, now)
  {
    hide Share, TruncatedDays, OneOver;
    var rem, life := v.to - now, Lifetime(v);
    DaysBound(rem);
    if rem > MINIMUM_RENEWAL_DAYS * DAY {
      WholeShare(rem, life, ratio, k);
      ScaledDays(rem, life, k);
      WholeShare(TruncatedDays(rem), TruncatedDays(life), ratio, k);
    }
  }

  /** With any ratio, a selected certificate is due at the latest `wait` days later, where `wait` is
      any number of days not below the ratio: one day for a ratio of at most 1. */
  lemma SelectedIsDueLater(v: Validity, ratio: real, wait: nat, now: int)
    requires 0.0 < ratio <= wait as real && Selected(v, ratio, now)
    ensures Due(v, ratio, now + wait * DAY)
  {
    hide Share, TruncatedDays;
    var rem := v.to - now;
    DaysBound(rem - wait * DAY);
    if rem - wait * DAY > MINIMUM_RENEWAL_DAYS * DAY {
      LaterDays(rem, Lifetime(v), ratio, wait);
    }
  }

  lemma LaterDays(rem: int, life: int, ratio: real, wait: nat)
    requires 0.0 < ratio <= wait as real && rem as real <= Share(life, ratio)
    requires rem - wait * DAY > 0
    ensures TruncatedDays(rem - wait * DAY) as real <= Share(TruncatedDays(life), ratio)
  {
    hide Share, TruncatedDays;
    var d, l := TruncatedDays(rem - wait * DAY), TruncatedDays(life);
    SharePositive(life, ratio);
    DaysBound(rem - wait * DAY);
    DaysBound(life);
    ShareGrows(life, (l + 1) * DAY, ratio);
    ShareOfDays(l, ratio);
    assert (d + wait) * DAY <= rem;
    assert ((d + wait) * DAY) as real == (d as real + wait as real) * DAY as real;
  }

  // ---------------------------------------------------------------- where the tests disagree

  lemma Quotient(x: real, y: real) returns (r: real)
    requires x >= 0.0 && y > 0.0
    ensures r >= 0.0 && r * y == x
  {
    r := x / y;
    if r < 0.0 { Product(-r, y); }
  }

  /** The fewest steps that go beyond x. */
  lemma Reach(x: real, step: real) returns (j: nat)
    requires x >= 0.0 && step > 0.0
    ensures j >= 1 && (j - 1) as real * step <= x < j as real * step
  {
    var r := Quotient(x, step);
    j := r.Floor + 1;
    var below, above := (j - 1) as real, j as real;
    assert below <= r < above;
    Stretch(below, r, step);
    StretchStrictly(r, above, step);
    assert r * step < above * step;
    assert x < above * step;
  }

  /** What is missing to a whole day when one millisecond is. */
  const GAP: real := 1.0 / DAY as real

  /** m multiples of a lie above a whole number, but not within a millisecond below the next. */
  ghost predicate Between(a: real, m: nat, q: int) {
    q as real < m as real * a <= q as real + 1.0 - GAP
  }

  lemma SplitMultiple(a: real, m: nat, j: nat)
    ensures (m + j) as real * a == m as real * a + j as real * a
  {
    assert (m + j) as real == m as real + j as real;
  }

  /** A number whose 11th multiple lies at or just below a whole number n, when its own fraction
      part is not within a millisecond below 1. */
  lemma StepUp(a: real, n: int, short: real) returns (m: nat, q: int)
    requires 0.0 <= short < GAP && 11.0 * a == n as real - short
    requires 0.0 < a - a.Floor as real <= 1.0 - GAP
    ensures m > 10 && Between(a, m, q)
  {
    var p := a.Floor;
    var f := a - p as real;
    var j := Reach(short, f);
    m, q := 11 + j, n + j * p;
    SplitMultiple(a, 11, j);
    Distribute(j, p, f);
    var above := j as real * f;
    assert m as real * a == q as real - short + above;
    assert 0.0 < above - short <= f;
  }

  /** The same when its fraction part is within a millisecond below 1. */
  lemma StepDown(a: real, n: int, short: real) returns (m: nat, q: int)
    requires 0.0 <= short < GAP && 11.0 * a == n as real - short
    requires a - a.Floor as real > 1.0 - GAP
    ensures m > 10 && Between(a, m, q)
  {
    var p := a.Floor + 1;
    var e := p as real - a;
    var j := Reach(GAP - short, e);
    m, q := 11 + j, n + j * p - 1;
    SplitMultiple(a, 11, j);
    Distribute(j, p, -e);
  }

  /** A number with a fraction part has a multiple, the 11th or a later one, that lies between two
      whole numbers and not within a millisecond below the upper one. */
  lemma MultipleBetween(a: real) returns (m: nat, q: int)
    requires a > 0.0 && a.Floor as real < a
    ensures m > 10 && Between(a, m, q)
  {
    hide Between;
    var c := 11.0 * a;
    var below := c.Floor;
    if below as real < c <= below as real + 1.0 - GAP {
      Eleven(a, below);
      m, q := 11, below;
    } else if a - a.Floor as real <= 1.0 - GAP {
      var n := if below as real == c then below else below + 1;
      m, q := StepUp(a, n, n as real - c);
    } else {
      var n := if below as real == c then below else below + 1;
      m, q := StepDown(a, n, n as real - c);
    }
  }

  lemma Eleven(a: real, q: int)
    requires q as real < 11.0 * a <= q as real + 1.0 - GAP
    ensures Between(a, 11, q)
  {
  }

  ghost predicate Disagree(v: Validity, ratio: real, now: int) {
    Selected(v, ratio, now) && !Due(v, ratio, now)
  }

  lemma ShareBelow(q: int, m: nat, ratio: real, a: real)
    requires ratio > 0.0 && a * ratio == 1.0 && q as real < m as real * a
    ensures Share(q, ratio) < m as real
  {
    var mr := m as real;
    StretchStrictly(q as real, mr * a, ratio);
    Regroup(mr, a, ratio);
  }

  lemma Regroup(x: real, a: real, ratio: real)
    requires a * ratio == 1.0
    ensures x * a * ratio == x
  {
    assert x * a * ratio == x * (a * ratio);
  }

  lemma ShareAbove(life: int, days: real, ratio: real, a: real)
    requires ratio > 0.0 && a * ratio == 1.0 && life as real >= days * a
    ensures days <= Share(life, ratio)
  {
    Stretch(days * a, life as real, ratio);
    Regroup(days, a, ratio);
  }

  lemma LongLife(a: real, m: nat, q: int)
    requires a > 0.0 && m > 0 && Between(a, m, q)
    ensures var life := (q + 1) * DAY - 1; life > 0 && life as real >= (m * DAY) as real * a
  {
    var life := (q + 1) * DAY - 1;
    var multiple, day := m as real * a, DAY as real;
    Product(m as real, a);
    assert life as real == (q as real + 1.0 - GAP) * day;
    Stretch(multiple, q as real + 1.0 - GAP, day);
    assert (m * DAY) as real * a == multiple * day;
  }

  /** A certificate m whole days before its end, whose lifetime is a millisecond short of q + 1 days. */
  lemma DisagreeAt(ratio: real, a: real, m: nat, q: int)
    requires ratio > 0.0 && a > 0.0 && a * ratio == 1.0 && m > 10 && Between(a, m, q)
    ensures Disagree(Validity(0, (q + 1) * DAY - 1), ratio, (q + 1) * DAY - 1 - m * DAY)
  {
    var life := (q + 1) * DAY - 1;
    LongLife(a, m, q);
    ShareBelow(q, m, ratio, a);
    ShareAbove(life, (m * DAY) as real, ratio, a);
    assert TruncatedDays(life) == q;
    assert TruncatedDays(m * DAY) == m;
    hide Share, TruncatedDays, Between;
  }

  /** The two tests agree on every certificate at every time if and only if the renewal ratio is
      one over a whole number, as the default of a third is. */
  lemma TestsAgreeExactlyWhen(ratio: real)
    requires ratio > 0.0
    ensures WholeFraction(ratio) <==> forall v, now :: Selected(v, ratio, now) ==> Due(v, ratio, now)
  {
    hide Selected, Due;
    if WholeFraction(ratio) {
      var k :| OneOver(ratio, k);
      forall v, now | Selected(v, ratio, now)
        ensures Due(v, ratio, now)
      {
        SelectedIsDue(v, ratio, k, now);
      }
    } else {
      var a := 1.0 / ratio;
      assert a * ratio == 1.0 && a > 0.0;
      var k: nat := a.Floor;
      assert !OneOver(ratio, k);

      var m, q := MultipleBetween(a);
      DisagreeAt(ratio, a, m, q);
    }
  }

  // ---------------------------------------------------------------- the daily checks

  /** A certificate that lives n days, with n days within the renewal threshold, is selected by n
      daily checks before it expires, whatever the time of the day; the last ten of them also find
      it due. */
  lemma ChecksBeforeExpiry(v: Validity, ratio: real, start: int, n: nat) returns (first: int)
    requires n * DAY <= Lifetime(v)
    requires (n * DAY) as real <= Max(Share(Lifetime(v), ratio), (10 * DAY) as real)
    ensures forall day :: first <= day < first + n ==>
      && v.from <= CheckTime(start, day) < v.to
      && Selected(v, ratio, CheckTime(start, day))
      && (first + n - day <= 10 ==> Due(v, ratio, CheckTime(start, day)))
  {
    first := (v.to - n * DAY - start + DAY - 1) / DAY;
    forall day | first <= day < first + n
      ensures v.from <= CheckTime(start, day) < v.to && Selected(v, ratio, CheckTime(start, day))
      ensures first + n - day <= 10 ==> Due(v, ratio, CheckTime(start, day))
    {
      hide Share;
      var rem := v.to - CheckTime(start, day);
      assert 0 < rem <= (first + n - day) * DAY;
      DaysBound(rem);
    }
  }

  /** The time of a daily check. */
  function CheckTime(start: int, day: int): int {
    start + day * DAY
  }

  /** A day on which the check runs and the job it queues is done: the certificate afterwards, when
      issuing would give `issued`, or fail. */
  function AfterDay(v: Validity, ratio: real, now: int, issued: Option<Validity>): Validity {
    if Selected(v, ratio, now) && Due(v, ratio, now) && issued.Some? then issued.value else v
  }

  function AfterDays(v: Validity, ratio: real, start: int, issued: seq<Option<Validity>>): Validity {
    if issued == [] then v
    else AfterDay(AfterDays(v, ratio, start, issued[..|issued| - 1]), ratio,
                  CheckTime(start, |issued| - 1), issued[|issued| - 1])
  }

  /** A certificate is renewed on the first of its last ten checks on which issuing succeeds, and
      so before it expires; until then it stays as it is. */
  lemma {:induction false} RenewedInTime(v: Validity, ratio: real, start: int, issued: seq<Option<Validity>>)
    requires v.to - 10 * DAY <= start
    requires issued != [] && forall i :: 0 <= i < |issued| - 1 ==> issued[i].None?
    ensures AfterDays(v, ratio, start, issued[..|issued| - 1]) == v
    ensures issued[|issued| - 1].Some? ==> AfterDays(v, ratio, start, issued) == issued[|issued| - 1].value
    ensures |issued| <= 10 && start < v.to - (10 - 1) * DAY
      ==> CheckTime(start, |issued| - 1) < v.to
    decreases |issued|
  {
    hide Selected, Due;
    var n := |issued| - 1;
    if n > 0 {
      RenewedInTime(v, ratio, start, issued[..n]);
      assert issued[..n][..n - 1] == issued[..n - 1];
      assert issued[n - 1].None?;
    }
    LastDaysAreDue(v, ratio, CheckTime(start, n));
  }

  /** In its last ten days a certificate passes both tests. */
  lemma LastDaysAreDue(v: Validity, ratio: real, now: int)
    requires v.to - 10 * DAY <= now
    ensures Selected(v, ratio, now) && Due(v, ratio, now)
  {
    hide Share;
    DaysBound(v.to - now);
    assert TruncatedDays(v.to - now) <= 10;
  }

  // ---------------------------------------------------------------- the manager

  datatype Domain = Domain(name: string)

  datatype Status = Waiting | Creating | Renewing | Generated | Error

  /** A certificate's row; without validity it has not been issued yet. */
  datatype Record = Record(letsEncrypt: bool, validity: Option<Validity>, status: Status)

  datatype JobResult = DnsFailed | Missing | NotDue | IssueFailed | Issued

  function Renewable(records: map<Domain, Record>, ratio: real, now: int): set<Domain> {
    set d | d in records && records[d].letsEncrypt && records[d].validity.Some?
            && Selected(records[d].validity.value, ratio, now)
  }

  /** A certificate of ours that has been issued and has ten days or no more than its share left. */
  ghost predicate AwaitsRenewal(record: Record, ratio: real, now: int) {
    && record.letsEncrypt && record.validity.Some?
    && var v := record.validity.value;
       v.to - now <= 864_000_000 || (v.to - now) as real <= (v.to - v.from) as real * ratio
  }

  lemma RenewableExactlyWhen(records: map<Domain, Record>, ratio: real, now: int)
    ensures forall d :: d in Renewable(records, ratio, now) <==> d in records && AwaitsRenewal(records[d], ratio, now)
  {
    hide Selected;
    forall d | d in records && records[d].validity.Some?
      ensures Selected(records[d].validity.value, ratio, now)
         <==> var v := records[d].validity.value;
              v.to - now <= 864_000_000 || (v.to - now) as real <= (v.to - v.from) as real * ratio
    {
      SelectedExactlyWhen(records[d].validity.value, ratio, now);
    }
  }

  class Manager {
    const ratio: real
    var records: map<Domain, Record>
    var queue: seq<Domain>

    constructor (ratio: real, records: map<Domain, Record>)
      requires ratio > 0.0
      ensures this.ratio == ratio && this.records == records && queue == []
    {
      this.ratio := ratio;
      this.records := records;
      queue := [];
    }

    method PushToJobQueue(domain: Domain)
      modifies `queue
      ensures queue == if domain in old(queue) then old(queue) else old(queue) + [domain]
    {
      if domain !in queue {
        queue := queue + [domain];
      }
    }

    /** The daily job: every certificate selected is queued, once. */
    method CheckRenewalCerts(now: int)
      requires Distinct(queue)
      modifies `queue
      ensures Distinct(queue) && old(queue) <= queue
      ensures Elements(queue) == Elements(old(queue)) + Renewable(records, ratio, now)
      ensures forall d :: d in queue <==> d in old(queue) || (d in records && AwaitsRenewal(records[d], ratio, now))
    {
      RenewableExactlyWhen(records, ratio, now);
      var certs := Renewable(records, ratio, now);
      while certs != {}
        invariant Distinct(queue) && old(queue) <= queue
        invariant certs <= Renewable(records, ratio, now)
        invariant forall d :: d in queue <==> d in old(queue) || (d in Renewable(records, ratio, now) && d !in certs)
        decreases certs
      {
        var cert :| cert in certs;
        PushToJobQueue(cert);
        certs := certs - {cert};
      }
    }

    /** The job: whether it looks the domain up is `dns`, and what issuing gives is `issued`. */
    method CreateOrRenewCert(domain: Domain, force: bool, now: int, dns: bool, issued: Option<Validity>)
      returns (result: JobResult)
      modifies `records
      ensures result.DnsFailed? <==> !dns
      ensures result.Missing? <==> dns && domain !in old(records)
      ensures result.NotDue? <==>
        && dns && domain in old(records) && !force && old(records)[domain].validity.Some?
        && !Due(old(records)[domain].validity.value, ratio, now)
      ensures result.Issued? ==>
        && issued.Some? && domain in old(records)
        && records == old(records)[domain := old(records)[domain].(validity := issued, status := Generated)]
      ensures result.IssueFailed? ==>
        && issued.None? && domain in old(records)
        && records == old(records)[domain := old(records)[domain].(
             status := if old(records)[domain].validity.Some? then Renewing else Creating)]
      ensures result.DnsFailed? || result.Missing? || result.NotDue? ==> records == old(records)
    {
      if !dns {
        return DnsFailed;
      }
      if domain !in records {
        return Missing;
      }
      var cert := records[domain];
      var status := Creating;
      if cert.validity.Some? {
        var remainingDays := TruncatedDays(cert.validity.value.to - now);
        var threshold := Max(Share(TruncatedDays(Lifetime(cert.validity.value)), ratio), MINIMUM_RENEWAL_DAYS as real);
        if !force && remainingDays as real > threshold {
          return NotDue;
        }
        status := Renewing;
      }
      records := records[domain := records[domain].(status := status)];
      if issued.None? {
        return IssueFailed;
      }
      records := records[domain := records[domain].(status := Generated, validity := issued)];
      result := Issued;
    }

    /** Takes the queue's first job; a job that fails leaves its certificate in error. */
    method RunJob(now: int, dns: bool, issued: Option<Validity>) returns (result: JobResult)
      requires queue != []
      modifies this
      ensures queue == old(queue)[1..]
      ensures records.Keys == old(records).Keys
      ensures forall d :: d in records && d != old(queue)[0] ==> records[d] == old(records)[d]
      ensures var d := old(queue)[0];
        d in records ==>
          && (records[d].validity == if result.Issued? then issued else old(records)[d].validity)
          && (result.Issued? <==>
                && dns && issued.Some?
                && (old(records)[d].validity.None? || Due(old(records)[d].validity.value, ratio, now)))
          && (result.DnsFailed? || result.IssueFailed? ==> records[d].status == Error)
    {
      var domain := queue[0];
      queue := queue[1..];
      result := CreateOrRenewCert(domain, false, now, dns, issued);
      if (result.DnsFailed? || result.IssueFailed?) && domain in records {
        records := records[domain := records[domain].(status := Error)];
      }
    }

    /** One day in the life of a certificate, as `AfterDay` has it: the check, and then its job, whatever
        becomes of the jobs before it. */
    method DailyCycle(domain: Domain, now: int, dns: bool, issued: Option<Validity>)
      requires queue == [] && domain in records && records[domain].letsEncrypt && records[domain].validity.Some?
      modifies this
      ensures domain in records
      ensures records[domain].validity
        == Some(AfterDay(old(records)[domain].validity.value, ratio, now, if dns then issued else None))
    {
      CheckRenewalCerts(now);
      assert domain in Elements(queue) <==> Selected(records[domain].validity.value, ratio, now);
      ghost var validity := records[domain].validity;
      while queue != [] && queue[0] != domain
        invariant domain in records && records[domain].validity == validity
        invariant Distinct(queue)
        invariant domain in queue <==> Selected(validity.value, ratio, now)
        decreases |queue|
      {
        var otherDns: bool, otherIssued: Option<Validity> := *, *;
        var other := RunJob(now, otherDns, otherIssued);
      }
      if queue != [] {
        var own := RunJob(now, dns, issued);
      }
    }
  }
}
