/** The allow-list loop shared by updateVehicle and updateUser: for each
    allowed key that the body defines, in allow-list order, push
    `key = $index` and the value, and bump index; the row id is bound to
    the placeholder that follows. */
module SetClauses {
  import opened Schema
  import opened Statements

  /** `column = $placeholder` in the SET list. */
  datatype SetClause = SetClause(column: string, placeholder: nat)

  /** The SET assignments a body yields: the allowed keys it defines, in
      allow-list order, each with the body's value. */
  function Assignments(allowed: seq<string>, body: map<string, Value>): (r: seq<Assignment>)
    ensures |r| <= |allowed|
    ensures forall i :: 0 <= i < |r| ==> r[i].column in allowed && r[i].column in body && r[i].value == body[r[i].column]
  {
    if allowed == [] then []
    else
      Assignments(allowed[..|allowed| - 1], body) + Single(body, allowed[|allowed| - 1])
  }

  /** Every allowed key the body defines is assigned. */
  lemma {:induction false} AssignmentsComplete(allowed: seq<string>, body: map<string, Value>, k: string)
    requires k in allowed && k in body
    ensures Assignment(k, body[k]) in Assignments(allowed, body)
    decreases |allowed|
  {
    var init := allowed[..|allowed| - 1];
    var last := allowed[|allowed| - 1];
    if k != last {
      assert allowed == init + [last];
      assert k in init;
      AssignmentsComplete(init, body, k);
    }
  }

  /** Keys outside the allow-list have no effect: two bodies that agree on
      the allowed keys yield the same assignments. */
  lemma {:induction false} AssignmentsIgnoreOtherKeys(allowed: seq<string>, body: map<string, Value>, body': map<string, Value>)
    requires forall k :: k in allowed ==> (k in body <==> k in body') && (k in body ==> body[k] == body'[k])
    ensures Assignments(allowed, body) == Assignments(allowed, body')
    decreases |allowed|
  {
    if allowed != [] {
      var init := allowed[..|allowed| - 1];
      assert forall k :: k in init ==> k in allowed;
      AssignmentsIgnoreOtherKeys(init, body, body');
    }
  }

  /** No assignment at all exactly when the body defines no allowed key. */
  lemma AssignmentsEmpty(allowed: seq<string>, body: map<string, Value>)
    ensures Assignments(allowed, body) == [] <==> forall k :: k in allowed ==> k !in body
  {
    if Assignments(allowed, body) == [] {
      forall k | k in allowed
        ensures k !in body
      {
        if k in body {
          AssignmentsComplete(allowed, body, k);
        }
      }
    }
  }

  /** The loop of updateVehicle and updateUser. The SET list numbers its
      placeholders $1..$k in allow-list order, values holds the k bound
      values in the same order, and index ends at k + 1, the placeholder of
      the row id that is bound after them. */
  method BuildSetClauses(allowed: seq<string>, body: map<string, Value>)
    returns (fields: seq<SetClause>, values: seq<Value>, index: nat)
    ensures index == |values| + 1 && |fields| == |values| == |Assignments(allowed, body)|
    ensures forall i :: 0 <= i < |fields| ==>
      fields[i] == SetClause(Assignments(allowed, body)[i].column, i + 1)
      && values[i] == Assignments(allowed, body)[i].value
  {
    fields, values, index := [], [], 1;
    for n := 0 to |allowed|
      invariant index == |values| + 1 && |fields| == |values| == |Assignments(allowed[..n], body)|
      invariant forall i :: 0 <= i < |fields| ==>
        fields[i] == SetClause(Assignments(allowed[..n], body)[i].column, i + 1)
        && values[i] == Assignments(allowed[..n], body)[i].value
    {
      var key := allowed[n];
      assert allowed[..n + 1][..n] == allowed[..n];
      if key in body {
        fields := fields + [SetClause(key, index)];
        values := values + [body[key]];
        index := index + 1;
      }
    }
    assert allowed[..|allowed|] == allowed;
  }

  /** What PostgreSQL executes: each `column = $i` with the i-th parameter. */
  function Bind(fields: seq<SetClause>, params: seq<Value>): (r: seq<Assignment>)
    requires forall i :: 0 <= i < |fields| ==> 1 <= fields[i].placeholder <= |params|
    ensures |r| == |fields|
    ensures forall i :: 0 <= i < |r| ==> r[i] == Assignment(fields[i].column, params[fields[i].placeholder - 1])
  {
    seq(|fields|, i requires 0 <= i < |fields| => Assignment(fields[i].column, params[fields[i].placeholder - 1]))
  }

  /** The assignment one allowed key contributes. */
  function Single(body: map<string, Value>, key: string): seq<Assignment> {
    if key in body then [Assignment(key, body[key])] else []
  }

  /** Extending the allow-list by one key appends that key's assignment. */
  lemma AssignmentsSnoc(allowed: seq<string>, key: string, body: map<string, Value>)
    ensures Assignments(allowed + [key], body) == Assignments(allowed, body) + Single(body, key)
  {
    assert (allowed + [key])[..|allowed|] == allowed;
  }

  /** Binding the loop's output executes exactly the body's assignments. */
  lemma BindBuiltClauses(allowed: seq<string>, body: map<string, Value>, fields: seq<SetClause>, values: seq<Value>)
    requires |fields| == |values| == |Assignments(allowed, body)|
    requires forall i :: 0 <= i < |fields| ==>
      fields[i] == SetClause(Assignments(allowed, body)[i].column, i + 1)
      && values[i] == Assignments(allowed, body)[i].value
    ensures forall i :: 0 <= i < |fields| ==> 1 <= fields[i].placeholder <= |values|
    ensures Bind(fields, values) == Assignments(allowed, body)
  {
  }
}
