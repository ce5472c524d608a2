/** Recovery task ids, and the original task they trace back to. */
module RecoveryLineage {
  import opened Wrappers

  const PREFIX: string := "fix-"
  const INFIX: string := "-attempt-"

  predicate IsDigit(c: char) {
    '0' <= c <= '9'
  }

  /** What the dot of a regular expression does not match. */
  predicate IsLineTerminator(c: char) {
    c == '\n' || c == '\r' || c as int == 0x2028 || c as int == 0x2029
  }

  /** Where the digits at the end of the text start. */
  function DigitsStart(s: string, end: nat): (r: nat)
    requires end <= |s|
    ensures r <= end && (forall i :: r <= i < end ==> IsDigit(s[i])) && (r > 0 ==> !IsDigit(s[r - 1]))
  {
    if end > 0 && IsDigit(s[end - 1]) then DigitsStart(s, end - 1) else end
  }

  /** The id of the task the recovery id was made for, if it is a recovery id. */
  function RecoveredTask(id: string): (r: Option<string>)
    ensures r.Some? ==> 0 < |r.value| < |id|
  {
    var d := DigitsStart(id, |id|);
    if d == |id| || d < |PREFIX| + |INFIX| + 1 || id[..|PREFIX|] != PREFIX || id[d - |INFIX|..d] != INFIX then None
    else
      var inner := id[|PREFIX|..d - |INFIX|];
      if exists i :: 0 <= i < |inner| && IsLineTerminator(inner[i]) then None else Some(inner)
  }

  function Root(id: string): string
    decreases |id|
  {
    match RecoveredTask(id)
    case None => id
    case Some(inner) => Root(inner)
  }

  /** A decimal number as the source writes it. */
  predicate IsNumeral(n: string) {
    n != "" && forall i :: 0 <= i < |n| ==> IsDigit(n[i])
  }

  function RecoveryId(id: string, attempt: string): string {
    PREFIX + id + INFIX + attempt
  }

  predicate OneLine(id: string) {
    forall i :: 0 <= i < |id| ==> !IsLineTerminator(id[i])
  }

  lemma {:induction false} DigitsOf(s: string, k: nat, end: nat)
    requires 0 < k <= end <= |s| && !IsDigit(s[k - 1]) && forall i :: k <= i < end ==> IsDigit(s[i])
    ensures DigitsStart(s, end) == k
  {
    if k < end {
      DigitsOf(s, k, end - 1);
    }
  }

  /** Reading back the id a recovery task is given. */
  lemma RecoveryIdNamesTask(id: string, attempt: string)
    requires id != "" && OneLine(id) && IsNumeral(attempt)
    ensures RecoveredTask(RecoveryId(id, attempt)) == Some(id)
  {
    var s, d := RecoveryId(id, attempt), |PREFIX| + |id| + |INFIX|;
    assert s[d - 1] == INFIX[|INFIX| - 1] == '-';
    assert s[d..] == attempt;
    forall i | d <= i < |s| ensures IsDigit(s[i]) {
      assert s[i] == attempt[i - d];
    }
    DigitsOf(s, d, |s|);
    assert s[..|PREFIX|] == PREFIX && s[d - |INFIX|..d] == INFIX && s[|PREFIX|..d - |INFIX|] == id;
  }

  /** A recovery task, and a recovery task of a recovery task, count against the original task. */
  lemma RecoveryKeepsRoot(id: string, attempt: string)
    requires id != "" && OneLine(id) && IsNumeral(attempt)
    ensures Root(RecoveryId(id, attempt)) == Root(id)
  {
    RecoveryIdNamesTask(id, attempt);
  }

  /** A root is not a recovery id, and every id has one root. */
  lemma {:induction false} RootIsOriginal(id: string)
    ensures RecoveredTask(Root(id)) == None && Root(Root(id)) == Root(id)
    decreases |id|
  {
    if RecoveredTask(id).Some? {
      RootIsOriginal(RecoveredTask(id).value);
    }
  }

  method GetRecoveryLineageRoot(taskId: string) returns (root: string)
    ensures root == Root(taskId) && RecoveredTask(root) == None
  {
    root := taskId;
    while RecoveredTask(root).Some?
      invariant Root(root) == Root(taskId)
      decreases |root|
    {
      root := RecoveredTask(root).value;
    }
  }
}
