/** What the admin forms share: the mode a form is opened in, and the tag,
    skill and technology lists, edited by adding the trimmed text of an
    input box unless it is blank or already listed, and by removing every
    copy of an entry. */
module ListEditing {
  import opened Utils
  import opened Sorting

  /** `mode: "create" | "edit"` */
  datatype Mode = Create | Edit

  predicate NoDuplicates(s: seq<string>) {
    forall i, j :: 0 <= i < j < |s| ==> s[i] != s[j]
  }

  /** `if (input.trim() && !list.includes(input.trim()))` */
  predicate Accepted(list: seq<string>, input: string) {
    Trim(input) != "" && Trim(input) !in list
  }

  /** The add handlers: the new list and the new input-box text. An accepted
      entry is appended, trimmed, and the box is cleared; a blank or
      duplicate entry changes neither. */
  function AddEntry(list: seq<string>, input: string): (r: (seq<string>, string))
    ensures Accepted(list, input) ==> r.0 == list + [Trim(input)] && r.1 == ""
    ensures !Accepted(list, input) ==> r == (list, input)
    ensures NoDuplicates(list) ==> NoDuplicates(r.0)
    ensures forall x :: x in r.0 ==> x in list || (x == Trim(input) && x != "")
  {
    var entry := Trim(input);
    if entry != "" && entry !in list then
      var added := list + [entry];
      assert NoDuplicates(list) ==> NoDuplicates(added) by {
        if NoDuplicates(list) {
          forall i, j | 0 <= i < j < |added| ensures added[i] != added[j] {
            if j == |list| { assert added[i] == list[i]; assert list[i] in list; }
          }
        }
      }
      (added, "")
    else (list, input)
  }

  /** `list.filter((x) => x !== entry)` */
  function RemoveAll(list: seq<string>, entry: string): seq<string> {
    Filter(list, (x: string) => x != entry)
  }

  /** Removal drops every copy of the entry and keeps every other element
      as often as before; the rest keep their relative order, as `Filter`
      does. */
  lemma RemoveAllCounts(list: seq<string>, entry: string, x: string)
    ensures multiset(RemoveAll(list, entry))[x] == if x == entry then 0 else multiset(list)[x]
  {
    FilterCount(list, (y: string) => y != entry, x);
  }

  /** Removal keeps a list free of duplicates. */
  lemma {:induction false} RemoveAllNoDuplicates(list: seq<string>, entry: string)
    requires NoDuplicates(list)
    ensures NoDuplicates(RemoveAll(list, entry))
  {
    var r := RemoveAll(list, entry);
    forall i, j | 0 <= i < j < |r| ensures r[i] != r[j] {
      if r[i] == r[j] {
        RemoveAllCounts(list, entry, r[i]);
        CountInDistinct(list, r[i]);
        assert multiset(r)[r[i]] >= 2 by { CountTwo(r, i, j); }
        assert false;
      }
    }
  }

  /** In a duplicate-free list nothing occurs twice. */
  lemma {:induction false} CountInDistinct(s: seq<string>, x: string)
    requires NoDuplicates(s)
    ensures multiset(s)[x] <= 1
  {
    if s != [] {
      assert s == [s[0]] + s[1..];
      assert multiset(s) == multiset{s[0]} + multiset(s[1..]);
      assert NoDuplicates(s[1..]) by {
        forall i, j | 0 <= i < j < |s[1..]| ensures s[1..][i] != s[1..][j] {
          assert s[1..][i] == s[i + 1] && s[1..][j] == s[j + 1];
        }
      }
      CountInDistinct(s[1..], x);
      if x == s[0] {
        assert x !in s[1..] by {
          forall k | 0 <= k < |s[1..]| ensures s[1..][k] != x { assert s[1..][k] == s[k + 1]; }
        }
      }
    }
  }

  /** Two equal elements at different positions count twice. */
  lemma CountTwo(s: seq<string>, i: nat, j: nat)
    requires i < j < |s| && s[i] == s[j]
    ensures multiset(s)[s[i]] >= 2
  {
    assert s == s[..j] + [s[j]] + s[j + 1..];
    assert s[i] in s[..j];
    assert multiset(s) == multiset(s[..j]) + multiset{s[j]} + multiset(s[j + 1..]);
  }

  /** Removing an entry just added gives back the list it was added to. */
  lemma {:induction false} RemoveUndoesAdd(list: seq<string>, input: string)
    requires Accepted(list, input)
    ensures RemoveAll(AddEntry(list, input).0, Trim(input)) == list
  {
    var t := Trim(input);
    RemoveMissing(list, t);
    FilterAppend(list, [t], (x: string) => x != t);
  }

  /** Removing an entry that is not listed changes nothing. */
  lemma {:induction false} RemoveMissing(list: seq<string>, entry: string)
    requires entry !in list
    ensures RemoveAll(list, entry) == list
  {
    if list != [] {
      assert entry !in list[1..] by {
        forall k | 0 <= k < |list[1..]| ensures list[1..][k] != entry { assert list[1..][k] == list[k + 1]; }
      }
      RemoveMissing(list[1..], entry);
      assert list == [list[0]] + list[1..];
    }
  }

  lemma {:induction false} FilterAppend<T>(a: seq<T>, b: seq<T>, p: T -> bool)
    ensures Filter(a + b, p) == Filter(a, p) + Filter(b, p)
  {
    if a != [] {
      assert (a + b)[0] == a[0] && (a + b)[1..] == a[1..] + b;
      FilterAppend(a[1..], b, p);
    } else {
      assert a + b == b;
    }
  }
}
