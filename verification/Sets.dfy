/** Values outside finite sets. */
module Sets {

  lemma {:induction false} LongerThanAll(codes: set<string>) returns (n: nat)
    ensures forall code :: code in codes ==> |code| < n
  {
    if codes == {} {
      n := 0;
    } else {
      var code :| code in codes;
      n := LongerThanAll(codes - {code});
      n := if n <= |code| then |code| + 1 else n;
    }
  }

  lemma {:induction false} AboveAll(keys: set<int>) returns (n: int)
    ensures forall k :: k in keys ==> k < n
    decreases |keys|
  {
    n := 0;
    if k :| k in keys {
      var rest := AboveAll(keys - {k});
      n := if rest <= k then k + 1 else rest;
      forall j | j in keys
        ensures j < n
      {
        assert j == k || j in keys - {k};
      }
    }
  }
}
