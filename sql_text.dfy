/**
 * The text of the `UPDATE ... SET` statements the repository and the user
 * model assemble in a loop: one `key = :key, ` per data key, in order, then
 * `rtrim(..., ', ')` and a WHERE suffix.
 */
module SqlText {
  import opened Php

  /** The characters `rtrim($query, ', ')` strips. */
  const TrimChars: set<char> := {',', ' '}

  predicate IsIdentifierChar(c: char)
  {
    'a' <= c <= 'z' || 'A' <= c <= 'Z' || '0' <= c <= '9' || c == '_'
  }

  /** A column name as the tables use them: letters, digits and underscores. */
  predicate IsIdentifier(k: string)
  {
    |k| > 0 && forall i | 0 <= i < |k| :: IsIdentifierChar(k[i])
  }

  /** `key = :key`. */
  function Assignment(k: string): string
  {
    k + " = :" + k
  }

  /** What the SET loop appends: `key = :key, ` for each key in order. */
  function Assignments(keys: seq<string>): string
  {
    if |keys| == 0 then "" else Assignments(keys[..|keys| - 1]) + (Assignment(keys[|keys| - 1]) + ", ")
  }

  /** The assignments of the keys, in order, separated by ", ". */
  function SetList(keys: seq<string>): string
  {
    if |keys| == 0 then ""
    else if |keys| == 1 then Assignment(keys[0])
    else SetList(keys[..|keys| - 1]) + ", " + Assignment(keys[|keys| - 1])
  }

  /** The loop's text is the separated list with one separator too many. */
  lemma {:induction false} AssignmentsJoined(keys: seq<string>)
    requires |keys| > 0
    ensures Assignments(keys) == SetList(keys) + ", "
  {
    if |keys| > 1 {
      AssignmentsJoined(keys[..|keys| - 1]);
    } else {
      assert keys[..0] == [];
    }
  }

  /**
   * `rtrim` removes exactly that separator when the last key is a column
   * name, leaving `prefix` followed by the separated list.
   */
  lemma {:induction false} TrimmedAssignments(prefix: string, keys: seq<string>)
    requires |keys| > 0 && IsIdentifier(keys[|keys| - 1])
    ensures RTrim(prefix + Assignments(keys), TrimChars) == prefix + SetList(keys)
  {
    AssignmentsJoined(keys);
    var last := keys[|keys| - 1];
    var a := Assignment(last);
    var before := if |keys| == 1 then "" else SetList(keys[..|keys| - 1]) + ", ";
    assert SetList(keys) == before + a;
    var x := prefix + SetList(keys);
    assert x[|x| - 1] == a[|a| - 1] == last[|last| - 1];
    assert IsIdentifierChar(last[|last| - 1]);
    RTrimDropsSuffix(x, ", ", TrimChars);
    assert prefix + Assignments(keys) == x + ", ";
  }

  /** With no keys at all, `rtrim` also eats the space after `SET`. */
  lemma {:induction false} TrimmedNoAssignments(head: string)
    requires |head| > 0 && head[|head| - 1] !in TrimChars
    ensures RTrim(head + " " + Assignments([]), TrimChars) == head
  {
    assert head + " " + Assignments([]) == head + " ";
    RTrimDropsSuffix(head, " ", TrimChars);
  }

  /** The SET text grows by the assignment of entry `i`, after any head. */
  lemma AssignmentsStep(head: string, data: Pairs, i: int)
    requires 0 <= i < |data|
    ensures head + Assignments(PairKeys(data[..i])) + (Assignment(data[i].0) + ", ") == head + Assignments(PairKeys(data[..i + 1]))
  {
    var ks := PairKeys(data[..i + 1]);
    assert ks[..i] == PairKeys(data[..i]);
    ConcatAssoc(head, Assignments(PairKeys(data[..i])), Assignment(data[i].0) + ", ");
  }

  /**
   * Whether a statement names some `:marker` twice; `markers` lists them in
   * the order they occur. Both connections turn emulated prepares off, and
   * PDO then binds a named marker at its first position only, so such a
   * statement fails at `execute` whatever is bound.
   */
  predicate RepeatsMarker(markers: seq<string>)
  {
    exists i, j | 0 <= i < j < |markers| :: markers[i] == markers[j]
  }

  /**
   * The markers of `SET key = :key, ... WHERE id = :id ...` are the data keys
   * and then `id`: one repeats exactly when `data` itself has an `id` key.
   */
  lemma UpdateMarkersRepeat(data: Pairs)
    requires UniqueKeys(data)
    ensures RepeatsMarker(PairKeys(data) + ["id"]) <==> "id" in PairKeys(data)
  {
    var ks := PairKeys(data);
    var ms := ks + ["id"];
    if RepeatsMarker(ms) {
      var i, j :| 0 <= i < j < |ms| && ms[i] == ms[j];
      if j < |ks| {
        assert false;
      }
      assert ms[i] == ks[i] == "id";
    }
    if "id" in ks {
      var i :| 0 <= i < |ks| && ks[i] == "id";
      assert ms[i] == ms[|ks|];
    }
  }
}
