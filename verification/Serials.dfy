// Certificate serial numbers: a counter kept in the database, rendered in hexadecimal.
module Serials {
  import opened Base

  const INITIAL_SERIAL_NUMBER := 1
  const INT_MAX := 0x7fff_ffff

  // ---------------------------------------------------------------- the rendering

  function Digit(d: nat): char
    requires d < 16
  {
    "0123456789abcdef"[d]
  }

  function DigitValue(c: char): nat {
    if '0' <= c <= '9' then (c - '0') as nat else if 'a' <= c <= 'f' then (c - 'a') as nat + 10 else 0
  }

  // The %x conversion of a value that is not negative.
  function Hex(n: nat): string {
    if n < 16 then [Digit(n)] else Hex(n / 16) + [Digit(n % 16)]
  }

  function ParseHex(s: string): nat
    decreases |s|
  {
    if s == [] then 0 else 16 * ParseHex(s[..|s| - 1]) + DigitValue(s[|s| - 1])
  }

  lemma DigitRoundTrip(d: nat)
    requires d < 16
    ensures DigitValue(Digit(d)) == d
  {
  }

  lemma {:induction false} HexRoundTrip(n: nat)
    ensures ParseHex(Hex(n)) == n
  {
    DigitRoundTrip(n % 16);
    if n < 16 {
      assert Hex(n)[..0] == [];
    } else {
      HexRoundTrip(n / 16);
      assert Hex(n)[..|Hex(n)| - 1] == Hex(n / 16);
    }
  }

  predicate IsHexDigit(c: char) { '0' <= c <= '9' || 'a' <= c <= 'f' }

  // Only digits and lower-case letters are written, and a zero comes first only if it is the only one.
  lemma {:induction false} HexIsPlain(n: nat)
    ensures |Hex(n)| > 0 && forall i :: 0 <= i < |Hex(n)| ==> IsHexDigit(Hex(n)[i])
    ensures Hex(n)[0] == '0' <==> n == 0
  {
    if n >= 16 {
      HexIsPlain(n / 16);
    }
  }

  lemma HexInjective(m: nat, n: nat)
    requires Hex(m) == Hex(n)
    ensures m == n
  {
    HexRoundTrip(m);
    HexRoundTrip(n);
  }

  // ---------------------------------------------------------------- the database table

  class SerialTable {
    // The single row of the table, if there is one.
    var value: Option<nat>

    constructor ()
      ensures value == None
    {
      value := None;
    }

    // Run at every start; an existing row is left alone. `selected` and `inserted` tell whether the query and
    // the insertion work.
    method InitSerialNumber(selected: bool, inserted: bool) returns (status: Status)
      modifies this
      ensures value == AfterInit(old(value), selected, inserted)
      ensures status == ER_OK <==> selected && value.Some?
    {
      if !selected {
        return ER_FAIL;
      }
      if value.Some? {
        return ER_OK;
      }
      if !inserted {
        return ER_FAIL;
      }
      value := Some(INITIAL_SERIAL_NUMBER);
      status := ER_OK;
    }

    // The serial is handed out before the row is updated, and stays handed out if the update fails. Nothing is
    // handed out if the query fails.
    method GetNewSerialNumber(selected: bool, updated: bool) returns (status: Status, serial: Option<string>)
      requires value.Some? ==> value.value < INT_MAX
      modifies this
      ensures value == AfterIssue(old(value), selected, updated)
      ensures serial == if selected && old(value).Some? then Some(Hex(old(value).value)) else None
      ensures status == if !selected then ER_FAIL else if old(value).None? then ER_END_OF_DATA else if updated then ER_OK else ER_FAIL
    {
      if !selected {
        return ER_FAIL, None;
      }
      if value.None? {
        return ER_END_OF_DATA, None;
      }
      serial := Some(Hex(value.value));
      if updated {
        value := Some(value.value + 1);
        status := ER_OK;
      } else {
        status := ER_FAIL;
      }
    }
  }

  function AfterInit(value: Option<nat>, selected: bool, inserted: bool): Option<nat> {
    if value.None? && selected && inserted then Some(INITIAL_SERIAL_NUMBER) else value
  }

  function AfterIssue(value: Option<nat>, selected: bool, updated: bool): Option<nat> {
    if value.Some? && selected && updated then Some(value.value + 1) else value
  }

  // ---------------------------------------------------------------- runs

  // Starting up again, or signing a certificate; callers ignore the status of GetNewSerialNumber.
  datatype Use = Init(selected: bool, inserted: bool) | Sign(selected: bool, updated: bool)

  function Next(value: Option<nat>, u: Use): Option<nat> {
    match u
    case Init(selected, inserted) => AfterInit(value, selected, inserted)
    case Sign(selected, updated) => AfterIssue(value, selected, updated)
  }

  // The row after the first uses, starting from a new database.
  function ValueAfter(uses: seq<Use>): Option<nat>
    decreases |uses|
  {
    if uses == [] then None else Next(ValueAfter(uses[..|uses| - 1]), uses[|uses| - 1])
  }

  predicate Signs(uses: seq<Use>, i: nat) { i < |uses| && uses[i].Sign? }

  // The certificate signed by use i gets a serial.
  predicate Issues(uses: seq<Use>, i: nat) { Signs(uses, i) && uses[i].selected && ValueAfter(uses[..i]).Some? }

  // The serial of the certificate that use i signs; without one it stays empty.
  function Serial(uses: seq<Use>, i: nat): string
    requires Signs(uses, i)
  {
    if Issues(uses, i) then Hex(ValueAfter(uses[..i]).value) else ""
  }

  ghost predicate AllDistinct(uses: seq<Use>) {
    forall i, j :: 0 <= i < j && Signs(uses, i) && Signs(uses, j) ==> Serial(uses, i) != Serial(uses, j)
  }

  // A failed update is harmless only if no serial is issued afterwards.
  ghost predicate NoIssueAfterFailedUpdate(uses: seq<Use>) {
    forall i, j :: 0 <= i < j && Issues(uses, i) && Issues(uses, j) ==> uses[i].updated
  }

  ghost predicate AtMostOneWithout(uses: seq<Use>) {
    forall i, j :: 0 <= i < j && Signs(uses, i) && Signs(uses, j) ==> Issues(uses, i) || Issues(uses, j)
  }

  lemma HexNotEmpty(n: nat)
    ensures Hex(n) != ""
  {
  }

  lemma ValueNext(uses: seq<Use>, i: nat)
    requires i < |uses|
    ensures ValueAfter(uses[..i + 1]) == Next(ValueAfter(uses[..i]), uses[i])
  {
    assert uses[..i + 1][..i] == uses[..i];
  }

  lemma {:induction false} ValueGrows(uses: seq<Use>, i: nat, j: nat)
    requires i < j <= |uses| && Issues(uses, i)
    ensures ValueAfter(uses[..j]).Some?
    ensures ValueAfter(uses[..j]).value >= ValueAfter(uses[..i]).value + if uses[i].updated then 1 else 0
    decreases j
  {
    ValueNext(uses, j - 1);
    if i < j - 1 {
      ValueGrows(uses, i, j - 1);
    }
  }

  // The next serial after a failed update is the same one again.
  lemma {:induction false} RepeatsUntilNextIssue(uses: seq<Use>, i: nat, j: nat)
    requires i < j <= |uses| && Issues(uses, i) && !uses[i].updated
    requires forall k :: i < k < j ==> !Issues(uses, k)
    ensures ValueAfter(uses[..j]) == ValueAfter(uses[..i])
    decreases j
  {
    ValueNext(uses, j - 1);
    if i < j - 1 {
      RepeatsUntilNextIssue(uses, i, j - 1);
      assert !Issues(uses, j - 1);
    }
  }

  lemma {:induction false} FirstIssueAfter(uses: seq<Use>, i: nat, j: nat) returns (k: nat)
    requires i < j && Issues(uses, j)
    ensures i < k <= j && Issues(uses, k) && forall m :: i < m < k ==> !Issues(uses, m)
    decreases j - i
  {
    k := i + 1;
    if !Issues(uses, k) {
      k := FirstIssueAfter(uses, k, j);
    }
  }

  predicate Advances(uses: seq<Use>, i: nat) { Issues(uses, i) && uses[i].updated }

  // How many of the first n uses hand out a serial and update the row.
  function Advanced(uses: seq<Use>, n: nat): nat
    requires n <= |uses|
    decreases n
  {
    if n == 0 then 0 else if Advances(uses, n - 1) then Advanced(uses, n - 1) + 1 else Advanced(uses, n - 1)
  }

  // The counter starts at 1 and goes up by one with each serial whose update works.
  lemma {:induction false} ValueCounts(uses: seq<Use>, n: nat)
    requires n <= |uses|
    ensures ValueAfter(uses[..n]).Some? ==> ValueAfter(uses[..n]).value == 1 + Advanced(uses, n)
    ensures ValueAfter(uses[..n]).None? ==> Advanced(uses, n) == 0
    decreases n
  {
    if n > 0 {
      ValueCounts(uses, n - 1);
      ValueNext(uses, n - 1);
    }
  }

  // The serials of a run are 1, 2, 3 and so on in hexadecimal, each repeated until its update works.
  lemma SerialCounts(uses: seq<Use>, i: nat)
    requires Signs(uses, i)
    ensures Serial(uses, i) == if Issues(uses, i) then Hex(1 + Advanced(uses, i)) else ""
  {
    ValueCounts(uses, i);
  }

  // As long as there are fewer uses than positive integers, the counter does not overflow.
  lemma {:induction false} ValuesStayInt(uses: seq<Use>)
    requires |uses| <= INT_MAX
    ensures ValueAfter(uses).Some? ==> 1 <= ValueAfter(uses).value <= |uses|
    decreases |uses|
  {
    if uses != [] {
      ValuesStayInt(uses[..|uses| - 1]);
    }
  }

  lemma SerialsDiffer(uses: seq<Use>, i: nat, j: nat)
    requires i < j && Signs(uses, i) && Signs(uses, j)
    requires NoIssueAfterFailedUpdate(uses) && AtMostOneWithout(uses)
    ensures Serial(uses, i) != Serial(uses, j)
  {
    if Issues(uses, i) && Issues(uses, j) {
      ValueGrows(uses, i, j);
      if Serial(uses, i) == Serial(uses, j) {
        HexInjective(ValueAfter(uses[..i]).value, ValueAfter(uses[..j]).value);
      }
    } else if Issues(uses, i) {
      HexNotEmpty(ValueAfter(uses[..i]).value);
    } else {
      HexNotEmpty(ValueAfter(uses[..j]).value);
    }
  }

  // Over any run with any number of restarts on the same database, the serials of all certificates signed
  // are pairwise distinct exactly if no update of the row failed before a later serial was issued and at
  // most one certificate was signed without a serial.
  lemma SerialsDistinctExactly(uses: seq<Use>)
    requires |uses| <= INT_MAX
    ensures AllDistinct(uses) <==> NoIssueAfterFailedUpdate(uses) && AtMostOneWithout(uses)
  {
    if NoIssueAfterFailedUpdate(uses) && AtMostOneWithout(uses) {
      forall i, j | 0 <= i < j && Signs(uses, i) && Signs(uses, j) ensures Serial(uses, i) != Serial(uses, j) {
        SerialsDiffer(uses, i, j);
      }
    } else if NoIssueAfterFailedUpdate(uses) {
      var i, j :| 0 <= i < j && Signs(uses, i) && Signs(uses, j) && !Issues(uses, i) && !Issues(uses, j);
      assert Serial(uses, i) == Serial(uses, j);
    } else {
      var i, j :| 0 <= i < j && Issues(uses, i) && Issues(uses, j) && !uses[i].updated;
      var k := FirstIssueAfter(uses, i, j);
      RepeatsUntilNextIssue(uses, i, k);
      assert Serial(uses, i) == Serial(uses, k);
    }
  }
}
