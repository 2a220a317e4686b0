/** The values of the todo list and the pure transforms its handlers apply:
    the `Todo` record, the `map` that toggles completion, the `filter` that
    deletes, and the light/dark theme flip. */
module Todos {

  /** One task. `id` comes from the clock when the task is added, so two tasks may share it. */
  datatype Todo = Todo(id: int, text: string, completed: bool)

  /** The todo with its completion flag negated, everything else kept. */
  function Flip(t: Todo): Todo {
    t.(completed := !t.completed)
  }

  /** Some entry of `s` carries `id`. */
  predicate HasId(s: seq<Todo>, id: int) {
    exists t :: t in s && t.id == id
  }

  /** The number of entries of `s` that carry `id`. */
  function CountId(s: seq<Todo>, id: int): (n: nat)
    ensures n <= |s|
    ensures n == 0 <==> !HasId(s, id)
  {
    if s == [] then 0
    else
      assert forall t :: t in s <==> t == s[0] || t in s[1..];
      (if s[0].id == id then 1 else 0) + CountId(s[1..], id)
  }

  // ---------------------------------------------------------------------------
  // toggleTodo: a map over the list that flips the entries carrying the id
  // ---------------------------------------------------------------------------

  /** Every entry carrying `id` has its completion flag negated; the list keeps its length. */
  function ToggleAll(s: seq<Todo>, id: int): (r: seq<Todo>)
    ensures |r| == |s|
  {
    if s == [] then []
    else [if s[0].id == id then Flip(s[0]) else s[0]] + ToggleAll(s[1..], id)
  }

  /** Position by position, toggling keeps the id and the text, negates `completed`
      exactly where the id matches, and leaves every other entry as it was. */
  lemma {:induction false} ToggleAllAt(s: seq<Todo>, id: int)
    ensures |ToggleAll(s, id)| == |s|
    ensures forall i :: 0 <= i < |s| ==>
      ToggleAll(s, id)[i].id == s[i].id &&
      ToggleAll(s, id)[i].text == s[i].text &&
      ToggleAll(s, id)[i].completed == (if s[i].id == id then !s[i].completed else s[i].completed)
    ensures forall i :: 0 <= i < |s| && s[i].id != id ==> ToggleAll(s, id)[i] == s[i]
  {
    if s != [] {
      ToggleAllAt(s[1..], id);
      var r := ToggleAll(s, id);
      assert forall i :: 1 <= i < |s| ==> r[i] == ToggleAll(s[1..], id)[i - 1] && s[i] == s[1..][i - 1];
    }
  }

  /** Toggling the same id twice restores the original list. */
  lemma {:induction false} ToggleAllTwice(s: seq<Todo>, id: int)
    ensures ToggleAll(ToggleAll(s, id), id) == s
  {
    var r := ToggleAll(s, id);
    ToggleAllAt(s, id);
    ToggleAllAt(r, id);
    var rr := ToggleAll(r, id);
    forall i | 0 <= i < |s| ensures rr[i] == s[i] {
    }
  }

  /** Toggling leaves the list as it was exactly when no entry carries the id. */
  lemma {:induction false} ToggleAllUnchangedIff(s: seq<Todo>, id: int)
    ensures ToggleAll(s, id) == s <==> !HasId(s, id)
  {
    ToggleAllAt(s, id);
    var r := ToggleAll(s, id);
    if HasId(s, id) {
      var t :| t in s && t.id == id;
      var i :| 0 <= i < |s| && s[i] == t;
      assert r[i].completed != s[i].completed;
    } else {
      forall i | 0 <= i < |s| ensures r[i] == s[i] {
        assert s[i] in s;
      }
    }
  }

  // ---------------------------------------------------------------------------
  // deleteTodo: a filter that keeps the entries whose id differs
  // ---------------------------------------------------------------------------

  /** The entries whose id differs from `id`: no entry carrying it survives, every
      other entry does, and exactly the entries carrying it are gone. */
  function DeleteAll(s: seq<Todo>, id: int): (r: seq<Todo>)
    ensures |r| == |s| - CountId(s, id)
    ensures forall t :: t in r <==> t in s && t.id != id
  {
    if s == [] then []
    else
      assert forall t :: t in s <==> t == s[0] || t in s[1..];
      if s[0].id == id then DeleteAll(s[1..], id) else [s[0]] + DeleteAll(s[1..], id)
  }

  /** `f` with every position moved one to the right. */
  function Shifted(f: seq<nat>): (g: seq<nat>)
    ensures |g| == |f| && forall k :: 0 <= k < |f| ==> g[k] == f[k] + 1
  {
    seq(|f|, k requires 0 <= k < |f| => f[k] + 1)
  }

  /** `f` lists, in increasing order, exactly the positions of `s` whose id differs from `id`. */
  ghost predicate EnumeratesKept(f: seq<nat>, s: seq<Todo>, id: int) {
    (forall k :: 0 <= k < |f| ==> f[k] < |s| && s[f[k]].id != id) &&
    (forall k, l :: 0 <= k < l < |f| ==> f[k] < f[l]) &&
    (forall i :: 0 <= i < |s| && s[i].id != id ==> i in f)
  }

  /** The positions of `s` whose id differs from `id`, in increasing order. */
  function KeptIndices(s: seq<Todo>, id: int): (f: seq<nat>)
    ensures EnumeratesKept(f, s, id)
  {
    if s == [] then []
    else
      var rest := KeptIndices(s[1..], id);
      EnumeratesKeptShift(s, id, rest);
      if s[0].id == id then Shifted(rest)
      else
        EnumeratesKeptCons(s, id, Shifted(rest));
        [0] + Shifted(rest)
  }

  /** An enumeration of the tail of `s`, shifted, enumerates `s` apart from position 0. */
  lemma EnumeratesKeptShift(s: seq<Todo>, id: int, rest: seq<nat>)
    requires s != [] && EnumeratesKept(rest, s[1..], id)
    ensures var g := Shifted(rest);
      (forall k :: 0 <= k < |g| ==> 1 <= g[k] < |s| && s[g[k]].id != id) &&
      (forall k, l :: 0 <= k < l < |g| ==> g[k] < g[l]) &&
      (forall i :: 1 <= i < |s| && s[i].id != id ==> i in g)
    ensures s[0].id == id ==> EnumeratesKept(Shifted(rest), s, id)
  {
  }

  /** Prepending position 0 when the head of `s` survives. */
  lemma EnumeratesKeptCons(s: seq<Todo>, id: int, g: seq<nat>)
    requires s != [] && s[0].id != id
    requires forall k :: 0 <= k < |g| ==> 1 <= g[k] < |s| && s[g[k]].id != id
    requires forall k, l :: 0 <= k < l < |g| ==> g[k] < g[l]
    requires forall i :: 1 <= i < |s| && s[i].id != id ==> i in g
    ensures EnumeratesKept([0] + g, s, id)
  {
  }

  /** Deleting selects the surviving positions in their original order: the k-th entry
      left is the entry at the k-th position whose id differs from `id`. */
  lemma {:induction false} DeleteAllSelects(s: seq<Todo>, id: int)
    ensures |DeleteAll(s, id)| == |KeptIndices(s, id)|
    ensures forall k :: 0 <= k < |KeptIndices(s, id)| ==> DeleteAll(s, id)[k] == s[KeptIndices(s, id)[k]]
  {
    if s != [] {
      var r', f' := DeleteAll(s[1..], id), KeptIndices(s[1..], id);
      DeleteAllSelects(s[1..], id);
      assert forall k :: 0 <= k < |f'| ==> f'[k] < |s| - 1 && r'[k] == s[f'[k] + 1] by {
        forall k | 0 <= k < |f'| ensures f'[k] < |s| - 1 && r'[k] == s[f'[k] + 1] {
          assert EnumeratesKept(f', s[1..], id);
          assert s[1..][f'[k]] == s[f'[k] + 1];
        }
      }
      SelectsShifted(s, r', f');
    }
  }

  /** A selection from the tail of `s` is, shifted by one, a selection from `s`,
      and stays one when the head of `s` is put in front of both. */
  lemma SelectsShifted(s: seq<Todo>, r': seq<Todo>, f': seq<nat>)
    requires s != [] && |r'| == |f'|
    requires forall k :: 0 <= k < |f'| ==> f'[k] < |s| - 1 && r'[k] == s[f'[k] + 1]
    ensures forall k :: 0 <= k < |f'| ==> r'[k] == s[Shifted(f')[k]]
    ensures forall k :: 0 <= k < |f'| + 1 ==> ([s[0]] + r')[k] == s[([0] + Shifted(f'))[k]]
  {
  }

  /** Deleting leaves the list as it was exactly when no entry carries the id. */
  lemma {:induction false} DeleteAllUnchangedIff(s: seq<Todo>, id: int)
    ensures DeleteAll(s, id) == s <==> !HasId(s, id)
  {
    if !HasId(s, id) {
      assert CountId(s, id) == 0;
      DeleteAllSelects(s, id);
      IncreasingBelowLengthIsIdentity(KeptIndices(s, id));
    }
  }

  /** `n` strictly increasing naturals below `n` are exactly 0, 1, ..., n - 1. */
  lemma {:induction false} IncreasingBelowLengthIsIdentity(f: seq<nat>)
    requires forall k :: 0 <= k < |f| ==> f[k] < |f|
    requires forall k, l :: 0 <= k < l < |f| ==> f[k] < f[l]
    ensures forall k :: 0 <= k < |f| ==> f[k] == k
    decreases |f|
  {
    if f != [] {
      var n := |f| - 1;
      // the last of |f| strictly increasing naturals below |f| is |f| - 1
      IncreasingBelowBoundIsShort(f[..n], f[n]);
      IncreasingBelowLengthIsIdentity(f[..n]);
      assert forall k :: 0 <= k < n ==> f[..n][k] == f[k];
    }
  }

  /** Strictly increasing naturals below `b` are no more than `b` in number. */
  lemma {:induction false} IncreasingBelowBoundIsShort(f: seq<nat>, b: nat)
    requires forall k :: 0 <= k < |f| ==> f[k] < b
    requires forall k, l :: 0 <= k < l < |f| ==> f[k] < f[l]
    ensures |f| <= b
    decreases |f|
  {
    if f != [] {
      var n := |f| - 1;
      IncreasingBelowBoundIsShort(f[..n], f[n]);
    }
  }

  /** After a delete no entry carries the id, and deleting again changes nothing. */
  lemma {:induction false} DeleteAllIdempotent(s: seq<Todo>, id: int)
    ensures !HasId(DeleteAll(s, id), id)
    ensures DeleteAll(DeleteAll(s, id), id) == DeleteAll(s, id)
  {
    DeleteAllUnchangedIff(DeleteAll(s, id), id);
  }

  // ---------------------------------------------------------------------------
  // toggleTheme: light becomes dark, anything else becomes light
  // ---------------------------------------------------------------------------

  const Light: string := "light"
  const Dark: string := "dark"

  /** The next theme: light becomes dark, and any other value becomes light. */
  function NextTheme(t: string): (r: string)
    ensures r == Light || r == Dark
    ensures r == Dark <==> t == Light
  {
    if t == Light then Dark else Light
  }

  /** Two flips restore a light or dark theme. */
  lemma NextThemeTwice(t: string)
    requires t == Light || t == Dark
    ensures NextTheme(NextTheme(t)) == t
  {
  }

  /** The theme after flipping `n` times starting from `t`. */
  function ThemeAfter(t: string, n: nat): (r: string)
    ensures n > 0 ==> (r == Light || r == Dark)
  {
    if n == 0 then t else NextTheme(ThemeAfter(t, n - 1))
  }

  /** Starting from light, an even number of flips gives light and an odd number dark. */
  lemma {:induction false} ThemeAfterFromLight(n: nat)
    ensures ThemeAfter(Light, n) == if n % 2 == 0 then Light else Dark
  {
    if n > 0 {
      ThemeAfterFromLight(n - 1);
    }
  }
}
