/** The Game 1 agent: a sparse table of action values, the epsilon-greedy
    action choice and the one-step temporal-difference update. */
module QLearning {
  import opened Common

  /** `game1State.qTable`: state (cell index) to the values of the four
      actions up, right, down, left. States never updated are absent. */
  type QTable = map<int, seq<real>>

  /** The learning rate and the discount factor of `updateQTable`. */
  const Alpha: real := 0.1
  const Gamma: real := 0.9

  /** The vector an absent state stands for. */
  const ZeroRow: seq<real> := [0.0, 0.0, 0.0, 0.0]

  /** Every stored vector has one value per action. */
  ghost predicate ValidTable(q: QTable) {
    forall s :: s in q ==> |q[s]| == 4
  }

  /** `qTable[state] || [0, 0, 0, 0]`. */
  function Row(q: QTable, s: int): seq<real> {
    if s in q then q[s] else ZeroRow
  }

  /** Two `Math.random()` values drawn in one call of `chooseAction`: the
      first decides between exploring and exploiting, the second picks the
      random action. Both lie in [0, 1). */
  datatype Draw = Draw(coin: real, pick: real)

  ghost predicate ValidDraw(d: Draw) {
    0.0 <= d.coin < 1.0 && 0.0 <= d.pick < 1.0
  }

  /** `Math.max(...v)`: the largest value of a non-empty vector. */
  function RowMax(v: seq<real>): (m: real)
    requires |v| > 0
    ensures exists j :: 0 <= j < |v| && v[j] == m
    ensures forall j :: 0 <= j < |v| ==> v[j] <= m
  {
    if |v| == 1 then v[0]
    else
      var rest := RowMax(v[1..]);
      assert forall j :: 1 <= j < |v| ==> v[j] == v[1..][j - 1];
      MaxReal(v[0], rest)
  }

  /** `v.indexOf(x)`: the first index holding `x`, or -1 when there is none. */
  function IndexOf(v: seq<real>, x: real): (k: int)
    ensures -1 <= k < |v|
    ensures k == -1 <==> (forall j :: 0 <= j < |v| ==> v[j] != x)
    ensures 0 <= k ==> v[k] == x && forall j :: 0 <= j < k ==> v[j] != x
  {
    if |v| == 0 then -1
    else if v[0] == x then 0
    else
      var k := IndexOf(v[1..], x);
      if k < 0 then -1 else k + 1
  }

  /** The exploit branch of `chooseAction`: the first index of the maximum
      is a greatest value, and every value before it is strictly smaller. */
  lemma FirstIndexOfMax(v: seq<real>)
    requires |v| > 0
    ensures var k := IndexOf(v, RowMax(v));
      && 0 <= k < |v|
      && (forall j :: 0 <= j < |v| ==> v[j] <= v[k])
      && (forall j :: 0 <= j < k ==> v[j] < v[k])
  {
    var m := RowMax(v);
    var j :| 0 <= j < |v| && v[j] == m;
  }

  /** `chooseAction`: with `coin < epsilon` a uniformly drawn action
      `floor(pick * 4)`, otherwise the first action of greatest value (an
      absent state counts as all zeros). */
  function ChooseAction(q: QTable, s: int, epsilon: real, d: Draw): (a: int)
    requires ValidTable(q)
    requires ValidDraw(d)
    ensures 0 <= a < 4
    ensures d.coin < epsilon ==> a as real <= d.pick * 4.0 < a as real + 1.0
    ensures epsilon <= d.coin ==>
      (forall j :: 0 <= j < 4 ==> Row(q, s)[j] <= Row(q, s)[a]) &&
      (forall j :: 0 <= j < a ==> Row(q, s)[j] < Row(q, s)[a])
    ensures epsilon <= d.coin && s !in q ==> a == 0
  {
    if d.coin < epsilon then
      (d.pick * 4.0).Floor
    else
      var v := Row(q, s);
      FirstIndexOfMax(v);
      IndexOf(v, RowMax(v))
  }

  /** The value the update bootstraps from: the best value of the next
      state, or 0 when the table has no entry for it. */
  function NextValue(q: QTable, next: int): real
    requires ValidTable(q)
  {
    if next in q then RowMax(q[next]) else 0.0
  }

  /** `updateQTable`: Q(s, a) moves by Alpha towards
      reward + Gamma * NextValue(next). An unseen state first gets the zero
      vector; no other value of the table changes. */
  function TdUpdate(q: QTable, s: int, a: int, reward: int, next: int): (q': QTable)
    requires ValidTable(q)
    requires 0 <= a < 4
    ensures ValidTable(q')
    ensures q'.Keys == q.Keys + {s}
    ensures Row(q', s)[a] ==
      Row(q, s)[a] + Alpha * (reward as real + Gamma * NextValue(q, next) - Row(q, s)[a])
    ensures forall t, b :: 0 <= b < 4 && (t != s || b != a) ==> Row(q', t)[b] == Row(q, t)[b]
  {
    var row := Row(q, s);
    q[s := row[a := row[a] + Alpha * (reward as real + Gamma * NextValue(q, next) - row[a])]]
  }

  /** The update never overshoots: the new value lies between the old
      value and the target reward + Gamma * NextValue(next). */
  lemma TdUpdateBetween(q: QTable, s: int, a: int, reward: int, next: int)
    requires ValidTable(q)
    requires 0 <= a < 4
    ensures var old_ := Row(q, s)[a];
      var target := reward as real + Gamma * NextValue(q, next);
      var new_ := Row(TdUpdate(q, s, a, reward, next), s)[a];
      (old_ <= target ==> old_ <= new_ <= target) &&
      (target <= old_ ==> target <= new_ <= old_)
  {
  }
}
