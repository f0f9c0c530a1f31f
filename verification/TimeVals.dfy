/** Times in seconds and milliseconds, the comparison macros, and normalisation. */
module TimeVals {

  datatype TimeVal = TimeVal(sec: int, msec: int)

  predicate Gt(a: TimeVal, b: TimeVal) { a.sec > b.sec || (a.sec == b.sec && a.msec > b.msec) }
  predicate Gte(a: TimeVal, b: TimeVal) { Gt(a, b) || a == b }
  predicate Lt(a: TimeVal, b: TimeVal) { !Gte(a, b) }
  predicate Lte(a: TimeVal, b: TimeVal) { !Gt(a, b) }

  /** Total milliseconds. */
  function Ms(t: TimeVal): int { t.sec * 1000 + t.msec }

  /** What normalisation leaves behind: less than a second of milliseconds, of the same
      sign as the seconds. */
  predicate Normal(t: TimeVal) {
    -1000 < t.msec < 1000 && (t.sec >= 1 ==> t.msec >= 0) && (t.sec < 0 ==> t.msec <= 0)
  }

  /** time_val_normalize: keeps the total and reaches the normal form. */
  method Normalize(t: TimeVal) returns (r: TimeVal)
    ensures Ms(r) == Ms(t) && Normal(r)
    ensures r.sec * 1000 + r.msec == t.sec * 1000 + t.msec && -1000 < r.msec < 1000
  {
    var sec, msec := t.sec, t.msec;
    if msec >= 1000 {
      sec := sec + msec / 1000;
      msec := msec % 1000;
    } else if msec <= -1000 {
      sec := sec - 1;
      msec := msec + 1000;
      while msec <= -1000
        invariant sec * 1000 + msec == Ms(t) && msec <= 0
        decreases -msec
      {
        sec := sec - 1;
        msec := msec + 1000;
      }
    }
    if sec >= 1 && msec < 0 {
      sec := sec - 1;
      msec := msec + 1000;
    } else if sec < 0 && msec > 0 {
      sec := sec + 1;
      msec := msec - 1000;
    }
    r := TimeVal(sec, msec);
  }

  /** On normal times the lexicographic comparisons agree with the total milliseconds. */
  lemma ComparisonIsByTotal(a: TimeVal, b: TimeVal)
    requires Normal(a) && Normal(b)
    ensures Gt(a, b) <==> Ms(a) > Ms(b)
    ensures Gte(a, b) <==> Ms(a) >= Ms(b)
    ensures Lt(a, b) <==> Ms(a) < Ms(b)
    ensures Lte(a, b) <==> Ms(a) <= Ms(b)
    ensures a == b <==> Ms(a) == Ms(b)
    ensures Lte(a, b) <==> a.sec * 1000 + a.msec <= b.sec * 1000 + b.msec
  {
  }

  /** Without normal form they need not: one second counts as later than 5000 ms. */
  lemma ComparisonNeedsNormalForm()
    ensures var a, b := TimeVal(1, 0), TimeVal(0, 5000);
            Gt(a, b) && Ms(a) < Ms(b)
  {
  }
}
