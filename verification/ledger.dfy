/** The expense ledger: entries, the entry form, removal by id and the
    running total, as pure values. The component that holds them as state is
    `Maker.MaintenanceMaker`. */
module Ledger {
  import opened Amounts

  /** One recorded expense: the id given at creation, the form's text fields
      and the parsed amount. */
  datatype Entry = Entry(id: int, item: string, month: string, amount: Num, deadline: string, status: string)

  /** The entry form, every field as the text its input holds. */
  datatype Form = Form(item: string, month: string, amount: string, deadline: string, status: string)

  /** The `name` of an input of the form. */
  datatype Field = ItemField | MonthField | AmountField | DeadlineField | StatusField

  /** The form as the component starts with it. */
  const EmptyForm: Form := Form("", "", "", "", "Pending")

  function Get(f: Form, name: Field): string {
    match name
    case ItemField => f.item
    case MonthField => f.month
    case AmountField => f.amount
    case DeadlineField => f.deadline
    case StatusField => f.status
  }

  /** `{ ...f, [name]: value }`: the named field takes the value, the other
      fields keep theirs. */
  function WithField(f: Form, name: Field, value: string): (r: Form)
    ensures Get(r, name) == value
    ensures forall other :: other != name ==> Get(r, other) == Get(f, other)
  {
    match name
    case ItemField => f.(item := value)
    case MonthField => f.(month := value)
    case AmountField => f.(amount := value)
    case DeadlineField => f.(deadline := value)
    case StatusField => f.(status := value)
  }

  /** The add guard: an empty item or an empty amount text rejects. */
  predicate CanAdd(f: Form)
    ensures CanAdd(f) <==> |Get(f, ItemField)| > 0 && |Get(f, AmountField)| > 0
  {
    f.item != "" && f.amount != ""
  }

  /** The entry an accepted form becomes: the form's text fields as they
      are, the amount as `parseFloat` reads it, and `id` as its id. */
  function NewEntry(f: Form, id: int): (e: Entry)
    ensures e.id == id && e.amount == ParseFloat(f.amount)
    ensures e.item == f.item && e.month == f.month
    ensures e.deadline == f.deadline && e.status == f.status
  {
    Entry(id, f.item, f.month, ParseFloat(f.amount), f.deadline, f.status)
  }

  /** The form after an accepted add: cleared, with the month kept. */
  function Cleared(f: Form): (r: Form)
    ensures !CanAdd(r) && r.month == f.month && r.status == "Pending"
    ensures r.item == "" && r.amount == "" && r.deadline == ""
  {
    Form("", f.month, "", "", "Pending")
  }

  /** `items.filter(item => item.id !== id)`. */
  function WithoutId(s: seq<Entry>, id: int): (r: seq<Entry>)
    ensures forall e :: e in r <==> e in s && e.id != id
    ensures |r| <= |s|
    ensures (forall i :: 0 <= i < |s| ==> s[i].id != id) ==> r == s
  {
    if s == [] then []
    else
      var rest := WithoutId(s[1..], id);
      assert forall e :: e in s <==> e == s[0] || e in s[1..];
      if s[0].id != id then [s[0]] + rest else rest
  }

  /** The entries that carry `id`: what the filter drops. */
  function WithId(s: seq<Entry>, id: int): (r: seq<Entry>)
    ensures forall e :: e in r <==> e in s && e.id == id
  {
    if s == [] then []
    else
      var rest := WithId(s[1..], id);
      assert forall e :: e in s <==> e == s[0] || e in s[1..];
      if s[0].id == id then [s[0]] + rest else rest
  }

  /** `items.reduce((sum, curr) => sum + (parseFloat(curr.amount) || 0), 0)`:
      a left fold starting from 0. With no negative amount the total is not
      negative. */
  function Total(s: seq<Entry>): (r: real)
    ensures (forall i :: 0 <= i < |s| ==> Contribution(s[i].amount) >= 0.0) ==> r >= 0.0
  {
    if s == [] then 0.0 else Total(s[..|s| - 1]) + Contribution(s[|s| - 1].amount)
  }

  /** No two entries share an id. */
  predicate UniqueIds(s: seq<Entry>) {
    forall i, j :: 0 <= i < j < |s| ==> s[i].id != s[j].id
  }

  /** The add guard looks at the item and the amount only. */
  lemma GuardIgnoresOtherFields(f: Form, name: Field, value: string)
    requires name == MonthField || name == DeadlineField || name == StatusField
    ensures CanAdd(WithField(f, name, value)) == CanAdd(f)
  {
    assert Get(WithField(f, name, value), ItemField) == f.item;
    assert Get(WithField(f, name, value), AmountField) == f.amount;
  }

  /** Totals of concatenated lists add up. */
  lemma {:induction false} TotalConcat(a: seq<Entry>, b: seq<Entry>)
    ensures Total(a + b) == Total(a) + Total(b)
    decreases |b|
  {
    if b == [] {
      assert a + b == a;
    } else {
      var b' := b[..|b| - 1];
      assert (a + b)[..|a + b| - 1] == a + b';
      TotalConcat(a, b');
    }
  }

  /** An added entry adds its parsed amount to the total, or nothing when the
      amount text was not a number. */
  lemma TotalAfterAdd(s: seq<Entry>, f: Form, id: int)
    ensures Total(s + [NewEntry(f, id)]) == Total(s) + Contribution(ParseFloat(f.amount))
    ensures ParseFloat(f.amount).NaN? ==> Total(s + [NewEntry(f, id)]) == Total(s)
  {
    assert (s + [NewEntry(f, id)])[..|s|] == s;
  }

  /** What the filter keeps and what it drops make up the whole total. */
  lemma {:induction false} TotalSplit(s: seq<Entry>, id: int)
    ensures Total(WithoutId(s, id)) + Total(WithId(s, id)) == Total(s)
  {
    if s != [] {
      var head, tail := [s[0]], s[1..];
      TotalSplit(tail, id);
      assert s == head + tail;
      TotalConcat(head, tail);
      if s[0].id != id {
        assert WithoutId(s, id) == head + WithoutId(tail, id);
        assert WithId(s, id) == WithId(tail, id);
        TotalConcat(head, WithoutId(tail, id));
      } else {
        assert WithoutId(s, id) == WithoutId(tail, id);
        assert WithId(s, id) == head + WithId(tail, id);
        TotalConcat(head, WithId(tail, id));
      }
    }
  }

  /** The filter works piecewise, so entries it keeps stay in their order. */
  lemma {:induction false} WithoutIdConcat(a: seq<Entry>, b: seq<Entry>, id: int)
    ensures WithoutId(a + b, id) == WithoutId(a, id) + WithoutId(b, id)
  {
    if a != [] {
      assert (a + b)[1..] == a[1..] + b;
      WithoutIdConcat(a[1..], b, id);
    } else {
      assert a + b == b;
    }
  }

  /** When exactly one entry has the id, removal cuts out that entry alone. */
  lemma RemoveOnly(s: seq<Entry>, k: int)
    requires 0 <= k < |s|
    requires forall i :: 0 <= i < |s| && i != k ==> s[i].id != s[k].id
    ensures WithoutId(s, s[k].id) == s[..k] + s[k + 1..]
    ensures |WithoutId(s, s[k].id)| == |s| - 1
  {
    var id, pre, post := s[k].id, s[..k], s[k + 1..];
    assert s == pre + ([s[k]] + post);
    WithoutIdConcat(pre, [s[k]] + post, id);
    WithoutIdConcat([s[k]], post, id);
    forall i | 0 <= i < |pre| ensures pre[i].id != id {
      assert pre[i] == s[i];
    }
    forall i | 0 <= i < |post| ensures post[i].id != id {
      assert post[i] == s[k + 1 + i];
    }
    assert WithoutId([s[k]], id) == [];
  }

  /** Adding an entry with a fresh id and then deleting that id gives back the
      list from before. */
  lemma AddThenDelete(s: seq<Entry>, f: Form, id: int)
    requires forall i :: 0 <= i < |s| ==> s[i].id != id
    ensures WithoutId(s + [NewEntry(f, id)], id) == s
  {
    WithoutIdConcat(s, [NewEntry(f, id)], id);
    assert WithoutId([NewEntry(f, id)], id) == [];
  }

  /** Deleting twice is deleting once. */
  lemma DeleteIdempotent(s: seq<Entry>, id: int)
    ensures WithoutId(WithoutId(s, id), id) == WithoutId(s, id)
  {
    var r := WithoutId(s, id);
    assert forall i :: 0 <= i < |r| ==> r[i].id != id by {
      forall i | 0 <= i < |r| ensures r[i].id != id {
        assert r[i] in r;
      }
    }
  }

  /** An add with an id no entry has keeps the ids unique. */
  lemma AddKeepsIdsUnique(s: seq<Entry>, f: Form, id: int)
    requires UniqueIds(s)
    requires forall i :: 0 <= i < |s| ==> s[i].id != id
    ensures UniqueIds(s + [NewEntry(f, id)])
  {
  }

  /** Deleting keeps the ids unique. */
  lemma {:induction false} DeleteKeepsIdsUnique(s: seq<Entry>, id: int)
    requires UniqueIds(s)
    ensures UniqueIds(WithoutId(s, id))
  {
    if s != [] {
      var tail := s[1..];
      DeleteKeepsIdsUnique(tail, id);
      var rest := WithoutId(tail, id);
      if s[0].id != id {
        forall i | 0 <= i < |rest| ensures rest[i].id != s[0].id {
          assert rest[i] in tail;
          var j :| 0 <= j < |tail| && tail[j] == rest[i];
          assert s[j + 1] == rest[i];
        }
        assert WithoutId(s, id) == [s[0]] + rest;
      }
    }
  }
}
