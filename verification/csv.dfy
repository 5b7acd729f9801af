/** The records the CSV export writes: one `index,title,status` record per
    task, numbered from 0. Writing them to a file, and CSV quoting, belong to
    the CSV library and are not modelled. */
module Csv {
  import TaskClient

  predicate IsDigit(ch: char) {
    '0' <= ch <= '9'
  }

  predicate AllDigits(s: string) {
    forall i :: 0 <= i < |s| ==> IsDigit(s[i])
  }

  function DigitChar(d: nat): (ch: char)
    requires d < 10
    ensures IsDigit(ch)
    ensures (ch as int) - ('0' as int) == d
  {
    (('0' as int) + d) as char
  }

  /** `format!("{}", n)` for a non-negative number: its decimal digits, most
      significant first, with no leading zero. */
  function NatToDecimal(n: nat): (r: string)
    ensures |r| >= 1
    ensures AllDigits(r)
    ensures r[0] == '0' ==> n == 0
    ensures |r| > 1 ==> r[0] != '0'
    ensures n == 0 ==> r == "0"
    decreases n
  {
    if n < 10 then [DigitChar(n)]
    else NatToDecimal(n / 10) + [DigitChar(n % 10)]
  }

  /** The number a string of decimal digits denotes. */
  function DecimalValue(s: string): nat
    requires AllDigits(s)
  {
    if |s| == 0 then 0
    else DecimalValue(s[..|s| - 1]) * 10 + ((s[|s| - 1] as int) - ('0' as int))
  }

  /** Reading the rendering back gives the number. */
  lemma {:induction false} DecimalRoundTrip(n: nat)
    ensures DecimalValue(NatToDecimal(n)) == n
    decreases n
  {
    var r := NatToDecimal(n);
    if n >= 10 {
      DecimalRoundTrip(n / 10);
      assert r[..|r| - 1] == NatToDecimal(n / 10);
    }
  }

  /** Distinct numbers render differently. */
  lemma DecimalInjective(i: nat, j: nat)
    requires NatToDecimal(i) == NatToDecimal(j)
    ensures i == j
  {
    DecimalRoundTrip(i);
    DecimalRoundTrip(j);
  }

  /** The record of task `task` at position `index`. */
  function Record(index: nat, task: TaskClient.Task): seq<string> {
    [NatToDecimal(index), task.title, task.status]
  }

  /** The record-building loop of `write_tasks_into_csv_file`. */
  method TaskRecords(tasks: seq<TaskClient.Task>) returns (records: seq<seq<string>>)
    ensures |records| == |tasks|
    ensures forall i :: 0 <= i < |tasks| ==> records[i] == Record(i, tasks[i])
    ensures forall i :: 0 <= i < |tasks| ==>
              |records[i]| == 3 && records[i][1] == tasks[i].title && records[i][2] == tasks[i].status
    ensures forall i :: 0 <= i < |records| ==>
              AllDigits(records[i][0]) && DecimalValue(records[i][0]) == i
  {
    records := [];
    var index := 0;
    while index < |tasks|
      invariant 0 <= index <= |tasks|
      invariant |records| == index
      invariant forall i :: 0 <= i < index ==> records[i] == Record(i, tasks[i])
    {
      var task := tasks[index];
      var record := [NatToDecimal(index), task.title, task.status];
      records := records + [record];
      index := index + 1;
    }
    forall i | 0 <= i < |records|
      ensures AllDigits(records[i][0]) && DecimalValue(records[i][0]) == i
    {
      DecimalRoundTrip(i);
    }
  }
}
