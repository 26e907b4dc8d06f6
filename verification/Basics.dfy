/** What every module speaks of: optional values, transaction ids, row keys. */
module Basics {
  datatype Option<+T> = None | Some(value: T)

  type TxId = nat

  type Key = int

  /** Python's `list.index`. */
  function IndexOf<T(==)>(s: seq<T>, x: T): (i: nat)
    requires x in s
    ensures i < |s| && s[i] == x && x !in s[..i]
  {
    if s[0] == x then 0 else 1 + IndexOf(s[1..], x)
  }

  /** The highest id, 0 if there is none: `max(ids, default=0)`. */
  function MaxId(ids: set<TxId>): (m: nat)
    ensures forall t :: t in ids ==> t <= m
    ensures m == 0 || m in ids
    decreases ids
  {
    if ids == {} then 0
    else
      MaxExists(ids);
      var a :| a in ids && forall t :: t in ids ==> t <= a;
      a
  }

  lemma {:induction false} MaxExists(ids: set<TxId>)
    requires ids != {}
    ensures exists a :: a in ids && forall t :: t in ids ==> t <= a
    decreases ids
  {
    var a :| a in ids;
    var rest := ids - {a};
    assert forall t :: t in ids ==> t == a || t in rest;
    if rest != {} {
      MaxExists(rest);
      var b :| b in rest && forall t :: t in rest ==> t <= b;
      assert (if a < b then b else a) in ids;
    } else {
      assert a in ids;
    }
  }

  method Highest(ids: set<TxId>) returns (m: TxId)
    ensures m == MaxId(ids)
  {
    m := 0;
    var todo := ids;
    while todo != {}
      invariant todo <= ids && (m == 0 || m in ids)
      invariant forall t: TxId :: t in ids && t !in todo ==> t <= m
      decreases |todo|
    {
      var t :| t in todo;
      if t > m { m := t; }
      todo := todo - {t};
    }
  }
}
