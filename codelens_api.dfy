/** What both providers share: the command a resolved code lens carries, its
    "N references" title, and counting the elements of a sequence that pass a
    test. */
module CodeLensApi {
  import opened JavaStrings

  datatype Option<T> = None | Some(value: T)

  /** jface Command(title, id): the text shown in the editor and the id of the
      command run on a click. Both providers pass the empty id. */
  datatype Command = Command(title: string, id: string)

  const ReferencesSuffix: string := " references"

  /** `refCount + " references"`: Java's decimal rendering of the count
      followed by the fixed word. */
  function ReferencesLabel(count: nat): (title: string)
    ensures |title| > |ReferencesSuffix|
    ensures title[|title| - |ReferencesSuffix|..] == ReferencesSuffix
  {
    DecimalString(count) + ReferencesSuffix
  }

  /** The command a provider attaches to a lens whose search found `count`
      references. */
  function ReferencesCommand(count: nat): (c: Command)
    ensures c.id == ""
    ensures ParseReferencesLabel(c.title) == Some(count)
  {
    LabelRoundTrip(count);
    Command(ReferencesLabel(count), "")
  }

  /** Reads the count back out of a title; None when the title does not have
      the "<digits> references" shape. */
  function ParseReferencesLabel(title: string): Option<nat>
  {
    if |title| <= |ReferencesSuffix| then None
    else
      var digits := title[..|title| - |ReferencesSuffix|];
      if title[|title| - |ReferencesSuffix|..] == ReferencesSuffix
         && forall c | c in digits :: IsDigit(c)
      then Some(DecimalValue(digits))
      else None
  }

  /** The title states the count: parsing it gives the count back. */
  lemma LabelRoundTrip(count: nat)
    ensures ParseReferencesLabel(ReferencesLabel(count)) == Some(count)
  {
    var title := ReferencesLabel(count);
    assert title[..|title| - |ReferencesSuffix|] == DecimalString(count);
    DecimalRoundTrip(count);
  }

  /** Different counts never share a title. */
  lemma LabelInjective(a: nat, b: nat)
    requires ReferencesLabel(a) == ReferencesLabel(b)
    ensures a == b
  {
    LabelRoundTrip(a);
    LabelRoundTrip(b);
  }

  /** How many elements of `s` satisfy `p`, walking `s` from the front, as a
      counting loop does. */
  function CountWhere<T>(s: seq<T>, p: T -> bool): (n: nat)
    ensures n <= |s|
  {
    if s == [] then 0
    else CountWhere(s[..|s| - 1], p) + (if p(s[|s| - 1]) then 1 else 0)
  }

  /** The positions of `s` whose element satisfies `p`. */
  ghost function PositionsWhere<T>(s: seq<T>, p: T -> bool): set<nat>
  {
    set i: nat | i < |s| && p(s[i])
  }

  /** The count is exactly the number of positions that pass the test: each
      element is counted once, whatever it holds. */
  lemma {:induction false} CountWhereIsPositionCount<T>(s: seq<T>, p: T -> bool)
    ensures CountWhere(s, p) == |PositionsWhere(s, p)|
  {
    if s != [] {
      var n := |s| - 1;
      var front := s[..n];
      CountWhereIsPositionCount(front, p);
      var before := PositionsWhere(front, p);
      if p(s[n]) {
        assert PositionsWhere(s, p) == before + {n};
        assert n !in before;
      } else {
        assert PositionsWhere(s, p) == before;
      }
    }
  }

  /** Every element passes the test exactly when the count is the length. */
  lemma {:induction false} CountWhereAll<T>(s: seq<T>, p: T -> bool)
    ensures CountWhere(s, p) == |s| <==> forall i :: 0 <= i < |s| ==> p(s[i])
  {
    if s != [] {
      var n := |s| - 1;
      CountWhereAll(s[..n], p);
      assert forall i :: 0 <= i < n ==> s[..n][i] == s[i];
    }
  }

  /** Counting over a concatenation adds the two counts. */
  lemma {:induction false} CountWhereAppend<T>(a: seq<T>, b: seq<T>, p: T -> bool)
    ensures CountWhere(a + b, p) == CountWhere(a, p) + CountWhere(b, p)
  {
    if b != [] {
      var n := |b| - 1;
      assert (a + b)[..|a + b| - 1] == a + b[..n];
      CountWhereAppend(a, b[..n], p);
    } else {
      assert a + b == a;
    }
  }

  /** The elements of `s` that satisfy `p`, in order. */
  function Filter<T>(s: seq<T>, p: T -> bool): (r: seq<T>)
    ensures |r| == CountWhere(s, p)
  {
    if s == [] then []
    else Filter(s[..|s| - 1], p) + (if p(s[|s| - 1]) then [s[|s| - 1]] else [])
  }

  lemma {:induction false} FilterAppend<T>(a: seq<T>, b: seq<T>, p: T -> bool)
    ensures Filter(a + b, p) == Filter(a, p) + Filter(b, p)
  {
    if b != [] {
      var n := |b| - 1;
      assert (a + b)[..|a + b| - 1] == a + b[..n];
      FilterAppend(a, b[..n], p);
    } else {
      assert a + b == a;
    }
  }
}
