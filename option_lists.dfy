/**
 * Option lists as the option code walks them: a PostgreSQL List of DefElem
 * nodes, each carrying an option name and its string value, in declaration
 * order. The functions here are defined on the last element, so that a loop
 * that walks a list from the front keeps them as invariants of its prefix.
 */
module OptionLists {
  import opened Wrappers

  /** One option: its name (defname) and the string it was given (defGetString). */
  datatype DefElem = DefElem(defname: string, arg: string)

  predicate HasName(s: seq<DefElem>, name: string)
  {
    exists i | 0 <= i < |s| :: s[i].defname == name
  }

  /** The value of the last option called name: what a variable assigned on each occurrence ends up holding. */
  function LastValue(s: seq<DefElem>, name: string): Option<string>
  {
    if s == [] then None
    else if s[|s| - 1].defname == name then Some(s[|s| - 1].arg)
    else LastValue(s[..|s| - 1], name)
  }

  /** The occurrence of name with no later occurrence supplies LastValue. */
  lemma {:induction false} LastValueAt(s: seq<DefElem>, name: string, i: nat)
    requires i < |s| && s[i].defname == name
    requires forall j | i < j < |s| :: s[j].defname != name
    ensures LastValue(s, name) == Some(s[i].arg)
  {
    if i < |s| - 1 {
      LastValueAt(s[..|s| - 1], name, i);
    }
  }

  /** LastValue is unset exactly when the name does not occur. */
  lemma {:induction false} LastValueNone(s: seq<DefElem>, name: string)
    ensures LastValue(s, name).None? <==> !HasName(s, name)
  {
    if s != [] {
      LastValueNone(s[..|s| - 1], name);
      if s[|s| - 1].defname != name {
        assert forall i | 0 <= i < |s| - 1 :: s[..|s| - 1][i] == s[i];
      }
    }
  }

  /** A set LastValue is the value of some option of that name. */
  lemma {:induction false} LastValueIn(s: seq<DefElem>, name: string)
    ensures LastValue(s, name).Some? ==>
            exists i | 0 <= i < |s| :: s[i].defname == name && s[i].arg == LastValue(s, name).value
  {
    if s != [] && s[|s| - 1].defname != name {
      var s' := s[..|s| - 1];
      LastValueIn(s', name);
      if LastValue(s', name).Some? {
        var i :| 0 <= i < |s'| && s'[i].defname == name && s'[i].arg == LastValue(s', name).value;
        assert s[i] == s'[i];
      }
    }
  }

  /** An option of another name has no effect on LastValue, wherever it stands. */
  lemma {:induction false} LastValueSkip(s1: seq<DefElem>, d: DefElem, s2: seq<DefElem>, name: string)
    requires d.defname != name
    ensures LastValue(s1 + [d] + s2, name) == LastValue(s1 + s2, name)
  {
    if s2 == [] {
      assert (s1 + [d] + s2)[..|s1 + [d] + s2| - 1] == s1;
      assert s1 + s2 == s1;
    } else {
      var s2' := s2[..|s2| - 1];
      LastValueSkip(s1, d, s2', name);
      assert (s1 + [d] + s2)[..|s1 + [d] + s2| - 1] == s1 + [d] + s2';
      assert (s1 + s2)[..|s1 + s2| - 1] == s1 + s2';
    }
  }

  /** The options of s that satisfy p, in their original order. */
  function Filter(s: seq<DefElem>, p: DefElem -> bool): seq<DefElem>
  {
    if s == [] then []
    else if p(s[|s| - 1]) then Filter(s[..|s| - 1], p) + [s[|s| - 1]]
    else Filter(s[..|s| - 1], p)
  }

  /** Filtering a concatenation filters each part and keeps their order. */
  lemma {:induction false} FilterConcat(a: seq<DefElem>, b: seq<DefElem>, p: DefElem -> bool)
    ensures Filter(a + b, p) == Filter(a, p) + Filter(b, p)
  {
    if b == [] {
      assert a + b == a;
    } else {
      var b' := b[..|b| - 1];
      FilterConcat(a, b', p);
      assert (a + b)[..|a + b| - 1] == a + b';
    }
  }

  /** Filter keeps exactly the members that satisfy p. */
  lemma {:induction false} FilterMembers(s: seq<DefElem>, p: DefElem -> bool)
    ensures forall x :: x in Filter(s, p) <==> x in s && p(x)
  {
    if s != [] {
      var s' := s[..|s| - 1];
      FilterMembers(s', p);
      assert s == s' + [s[|s| - 1]];
    }
  }

  /** An option p rejects has no effect on Filter, wherever it stands. */
  lemma FilterSkip(s1: seq<DefElem>, d: DefElem, s2: seq<DefElem>, p: DefElem -> bool)
    requires !p(d)
    ensures Filter(s1 + [d] + s2, p) == Filter(s1 + s2, p)
  {
    FilterConcat(s1 + [d], s2, p);
    FilterConcat(s1, s2, p);
    assert (s1 + [d])[..|s1 + [d]| - 1] == s1;
  }

  /** The number of options called name. */
  function CountName(s: seq<DefElem>, name: string): nat
  {
    if s == [] then 0
    else CountName(s[..|s| - 1], name) + (if s[|s| - 1].defname == name then 1 else 0)
  }

  lemma {:induction false} CountNameHas(s: seq<DefElem>, name: string)
    ensures CountName(s, name) > 0 <==> HasName(s, name)
  {
    if s != [] {
      var s' := s[..|s| - 1];
      CountNameHas(s', name);
      assert forall i | 0 <= i < |s'| :: s'[i] == s[i];
    }
  }

  /** The names of the options, in order: the option code's list of seen names. */
  function NameSeq(s: seq<DefElem>): (r: seq<string>)
    ensures |r| == |s|
    ensures forall i | 0 <= i < |s| :: r[i] == s[i].defname
  {
    if s == [] then [] else NameSeq(s[..|s| - 1]) + [s[|s| - 1].defname]
  }

  /**
   * Keeps the first option of each name and drops every later option of a
   * name already kept, as the generic pass-through options are merged.
   */
  function FirstByName(s: seq<DefElem>): seq<DefElem>
  {
    if s == [] then []
    else
      var kept := FirstByName(s[..|s| - 1]);
      if s[|s| - 1].defname in NameSeq(kept) then kept else kept + [s[|s| - 1]]
  }

  /** FirstByName keeps only options of s, at most one per name. */
  lemma {:induction false} FirstByNameShape(s: seq<DefElem>)
    ensures forall k | 0 <= k < |FirstByName(s)| :: FirstByName(s)[k] in s
    ensures forall k, l | 0 <= k < l < |FirstByName(s)| :: FirstByName(s)[k].defname != FirstByName(s)[l].defname
  {
    if s != [] {
      var s' := s[..|s| - 1];
      FirstByNameShape(s');
      assert forall x | x in s' :: x in s;
    }
  }

  /** Every name FirstByName keeps occurs in s. */
  lemma {:induction false} KeptNamesOccur(s: seq<DefElem>, name: string)
    ensures name in NameSeq(FirstByName(s)) ==> HasName(s, name)
  {
    if s != [] {
      var s' := s[..|s| - 1];
      var last := s[|s| - 1];
      var kept := FirstByName(s');
      KeptNamesOccur(s', name);
      if name in NameSeq(kept) {
        var j :| 0 <= j < |s'| && s'[j].defname == name;
        assert s[j] == s'[j];
      }
      if last.defname !in NameSeq(kept) {
        assert (kept + [last])[..|kept|] == kept;
        assert NameSeq(kept + [last]) == NameSeq(kept) + [last.defname];
      }
    }
  }

  /** An option whose name is new to prefix is appended by FirstByName. */
  lemma FirstByNameNewName(prefix: seq<DefElem>, last: DefElem)
    requires forall j | 0 <= j < |prefix| :: prefix[j].defname != last.defname
    ensures FirstByName(prefix + [last]) == FirstByName(prefix) + [last]
    ensures forall k | 0 <= k < |FirstByName(prefix)| :: FirstByName(prefix)[k].defname != last.defname
  {
    var kept := FirstByName(prefix);
    assert (prefix + [last])[..|prefix|] == prefix;
    KeptNamesOccur(prefix, last.defname);
    forall k | 0 <= k < |kept|
      ensures kept[k].defname != last.defname
    {
      assert NameSeq(kept)[k] == kept[k].defname;
    }
  }

  /** An option FirstByName keeps as the only one of its name stays so when the list grows. */
  lemma FirstByNameStaysKept(prefix: seq<DefElem>, last: DefElem, x: DefElem)
    requires x in FirstByName(prefix)
    requires forall k | 0 <= k < |FirstByName(prefix)| && FirstByName(prefix)[k].defname == x.defname ::
               FirstByName(prefix)[k] == x
    ensures x in FirstByName(prefix + [last])
    ensures forall k | 0 <= k < |FirstByName(prefix + [last])| && FirstByName(prefix + [last])[k].defname == x.defname ::
              FirstByName(prefix + [last])[k] == x
  {
    var kept := FirstByName(prefix);
    assert (prefix + [last])[..|prefix|] == prefix;
    if last.defname == x.defname {
      var k :| 0 <= k < |kept| && kept[k] == x;
      assert NameSeq(kept)[k] == last.defname;
      assert FirstByName(prefix + [last]) == kept;
    }
  }

  /**
   * The first option of a name is the one and only option of that name that
   * FirstByName keeps.
   */
  lemma {:induction false} FirstByNameKeepsFirst(s: seq<DefElem>, i: nat)
    requires i < |s|
    requires forall j | 0 <= j < i :: s[j].defname != s[i].defname
    ensures s[i] in FirstByName(s)
    ensures forall k | 0 <= k < |FirstByName(s)| && FirstByName(s)[k].defname == s[i].defname :: FirstByName(s)[k] == s[i]
  {
    var s' := s[..|s| - 1];
    assert s == s' + [s[|s| - 1]];
    if i == |s| - 1 {
      assert forall j | 0 <= j < |s'| :: s'[j] == s[j];
      FirstByNameNewName(s', s[i]);
    } else {
      assert forall j | 0 <= j < i :: s'[j] == s[j];
      FirstByNameKeepsFirst(s', i);
      assert s'[i] == s[i];
      FirstByNameStaysKept(s', s[|s| - 1], s[i]);
    }
  }

  /** A name occurs in FirstByName(s) exactly when it occurs in s. */
  lemma {:induction false} FirstByNameNames(s: seq<DefElem>, name: string)
    ensures HasName(FirstByName(s), name) <==> HasName(s, name)
  {
    FirstByNameShape(s);
    if HasName(s, name) {
      var i := FirstIndex(s, name);
      FirstByNameKeepsFirst(s, i);
    }
  }

  /** The index of the first option called name. */
  function FirstIndex(s: seq<DefElem>, name: string): (i: nat)
    requires HasName(s, name)
    ensures i < |s| && s[i].defname == name
    ensures forall j | 0 <= j < i :: s[j].defname != name
  {
    if s[0].defname == name then 0
    else
      assert HasName(s[1..], name) by {
        var j :| 0 <= j < |s| && s[j].defname == name;
        assert s[1..][j - 1] == s[j];
      }
      1 + FirstIndex(s[1..], name)
  }

  /**
   * The first option of its name in s stays, after filtering, ahead of every
   * other option of that name.
   */
  lemma {:induction false} FilterFirstOccurrence(s: seq<DefElem>, p: DefElem -> bool, i: nat)
    requires i < |s| && p(s[i])
    requires forall j | 0 <= j < i :: s[j].defname != s[i].defname
    ensures exists m | 0 <= m < |Filter(s, p)| :: Filter(s, p)[m] == s[i] &&
              forall l | 0 <= l < m :: Filter(s, p)[l].defname != s[i].defname
  {
    var s' := s[..|s| - 1];
    var f' := Filter(s', p);
    if i == |s| - 1 {
      FilterMembers(s', p);
      forall l | 0 <= l < |f'|
        ensures f'[l].defname != s[i].defname
      {
        assert f'[l] in s';
        var j :| 0 <= j < |s'| && s'[j] == f'[l];
        assert s[j] == s'[j];
      }
      assert Filter(s, p) == f' + [s[i]];
      assert Filter(s, p)[|f'|] == s[i];
    } else {
      assert forall j | 0 <= j < i :: s'[j] == s[j];
      FilterFirstOccurrence(s', p, i);
      var m :| 0 <= m < |f'| && f'[m] == s'[i] && forall l | 0 <= l < m :: f'[l].defname != s'[i].defname;
      assert Filter(s, p)[..|f'|] == f' by {
        if p(s[|s| - 1]) {
          assert Filter(s, p) == f' + [s[|s| - 1]];
        }
      }
      assert Filter(s, p)[m] == s[i];
    }
  }
}
