// The shape both form validators share: a fixed list of checks run in order,
// reporting the message of the first one that fails.
module Validation {

  /** One check of the chain: whether it fails, and what it says then. */
  datatype Check = Check(failed: bool, message: string)

  /** The message of the first failing check, "" when none fails. */
  function FirstFailure(checks: seq<Check>): (r: string)
    ensures r == "" || exists k :: 0 <= k < |checks| && checks[k].failed && checks[k].message == r
    ensures forall k :: 0 <= k < |checks| && checks[k].failed && (forall j :: 0 <= j < k ==> !checks[j].failed) ==>
      r == checks[k].message
    ensures (forall k :: 0 <= k < |checks| ==> !checks[k].failed) ==> r == ""
    decreases |checks|
  {
    if checks == [] then ""
    else if checks[0].failed then checks[0].message
    else
      var r := FirstFailure(checks[1..]);
      assert r != "" ==> exists k :: 1 <= k < |checks| && checks[k].failed && checks[k].message == r by {
        if r != "" {
          var k :| 0 <= k < |checks[1..]| && checks[1..][k].failed && checks[1..][k].message == r;
          assert checks[k + 1] == checks[1..][k];
        }
      }
      assert forall k :: 1 <= k < |checks| && checks[k].failed && (forall j :: 0 <= j < k ==> !checks[j].failed) ==>
        r == checks[k].message by {
        forall k | 1 <= k < |checks| && checks[k].failed && (forall j :: 0 <= j < k ==> !checks[j].failed)
          ensures r == checks[k].message
        {
          assert checks[1..][k - 1] == checks[k];
          forall j | 0 <= j < k - 1 ensures !checks[1..][j].failed {
            assert checks[1..][j] == checks[j + 1];
          }
        }
      }
      assert (forall k :: 0 <= k < |checks| ==> !checks[k].failed) ==> r == "" by {
        if forall k :: 0 <= k < |checks| ==> !checks[k].failed {
          forall k | 0 <= k < |checks[1..]| ensures !checks[1..][k].failed {
            assert checks[1..][k] == checks[k + 1];
          }
        }
      }
      r
  }
}
