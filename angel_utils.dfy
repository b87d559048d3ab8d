/**
 * The data handling of src/ANGEL/utils.py: inverting the cui-to-name
 * dictionary into a name-to-cuis dictionary (`load_dictionary`), turning
 * sets into lists for serialisation (`convert_sets_to_lists`), and reading
 * one line of a label file into a set of cuis (`load_cui_label`,
 * `load_label_ft`). Reading the files is not modelled: the loaded values are
 * the inputs.
 */
module AngelUtils {
  import opened Wrappers
  import opened Strings
  import opened Seqs
  import opened PyDict

  // ---------------------------------------------------------------------
  // Inverting the dictionary

  /** A value of `cui2str`: a list of names, or a single name. */
  datatype CuiNames = NameList(names: seq<String>) | OneName(name: String)

  /** `str2cui`: each name with the cuis that list it. */
  type Str2Cui = map<String, seq<String>>

  /** The names a value lists, in order. */
  function NamesOf(v: CuiNames): (ns: seq<String>)
    ensures v.OneName? ==> ns == [v.name]
    ensures v.NameList? ==> ns == v.names
  {
    match v
    case NameList(names) => names
    case OneName(name) => [name]
  }

  /** The cuis recorded for `name` so far; none when it has no entry. */
  function Lookup(m: Str2Cui, name: String): seq<String> {
    if name in m then m[name] else []
  }

  /** `str2cui[name].append(cui)`, or `str2cui[name] = [cui]` for a new name. */
  function Record(m: Str2Cui, name: String, cui: String): Str2Cui {
    if name in m then m[name := m[name] + [cui]] else m[name := [cui]]
  }

  /** The dictionary after the first `k` names of one cui's list. */
  function RecordNamesUpTo(m: Str2Cui, names: seq<String>, cui: String, k: nat): Str2Cui
    requires k <= |names|
  {
    if k == 0 then m else Record(RecordNamesUpTo(m, names, cui, k - 1), names[k - 1], cui)
  }

  /** The dictionary after one entry of `cui2str`. */
  function RecordEntry(m: Str2Cui, e: (String, CuiNames)): Str2Cui {
    RecordNamesUpTo(m, NamesOf(e.1), e.0, |NamesOf(e.1)|)
  }

  /** The dictionary after the first `n` entries of `cui2str`, in its iteration order. */
  function InvertUpTo(cui2str: Dict<String, CuiNames>, n: nat): Str2Cui
    requires n <= |cui2str|
  {
    if n == 0 then map[] else RecordEntry(InvertUpTo(cui2str, n - 1), cui2str[n - 1])
  }

  /** `cui` repeated `c` times. */
  function Repeat(cui: String, c: nat): (r: seq<String>)
    ensures |r| == c
  {
    if c == 0 then [] else Repeat(cui, c - 1) + [cui]
  }

  /** How many of the first `k` names are `x`. */
  function CountUpTo(names: seq<String>, x: String, k: nat): nat
    requires k <= |names|
  {
    if k == 0 then 0 else CountUpTo(names, x, k - 1) + (if names[k - 1] == x then 1 else 0)
  }

  /** How many times a list names `x`. */
  function Occurrences(names: seq<String>, x: String): nat {
    CountUpTo(names, x, |names|)
  }

  /**
   * The reference: the cuis of the first `n` entries that list `name`, in
   * iteration order, each as many times as its list names `name`.
   */
  function CuisOf(cui2str: Dict<String, CuiNames>, name: String, n: nat): seq<String>
    requires n <= |cui2str|
  {
    if n == 0 then []
    else CuisOf(cui2str, name, n - 1) + Repeat(cui2str[n - 1].0, Occurrences(NamesOf(cui2str[n - 1].1), name))
  }

  /** Every entry of the dictionary has at least one cui. */
  predicate NoEmptyEntries(m: Str2Cui) {
    forall x :: x in m ==> m[x] != []
  }

  /** Recording one name appends the cui to that name's cuis and leaves every other name alone. */
  lemma RecordLookup(m: Str2Cui, name: String, cui: String, x: String)
    ensures Lookup(Record(m, name, cui), x) == Lookup(m, x) + (if x == name then [cui] else [])
    ensures NoEmptyEntries(m) ==> NoEmptyEntries(Record(m, name, cui))
  {
  }

  /** A repeated cui is all its repetitions hold. */
  lemma {:induction false} RepeatMembership(cui: String, c: nat, y: String)
    ensures y in Repeat(cui, c) <==> c > 0 && y == cui
    decreases c
  {
    if c > 0 {
      RepeatMembership(cui, c - 1, y);
    }
  }

  /** A list names `x` at least once exactly when `x` is in it. */
  lemma {:induction false} CountPositive(names: seq<String>, x: String, k: nat)
    requires k <= |names|
    ensures CountUpTo(names, x, k) > 0 <==> x in names[..k]
    decreases k
  {
    if k > 0 {
      CountPositive(names, x, k - 1);
      assert names[..k] == names[..k - 1] + [names[k - 1]];
    }
  }

  /** The names of one list add, to each name, the cui once per time the list names it. */
  lemma {:induction false} RecordNamesLookup(m: Str2Cui, names: seq<String>, cui: String, k: nat, x: String)
    requires k <= |names|
    ensures Lookup(RecordNamesUpTo(m, names, cui, k), x) == Lookup(m, x) + Repeat(cui, CountUpTo(names, x, k))
    decreases k
  {
    if k > 0 {
      RecordNamesLookup(m, names, cui, k - 1, x);
      var before := RecordNamesUpTo(m, names, cui, k - 1);
      RecordLookup(before, names[k - 1], cui, x);
      var c := CountUpTo(names, x, k - 1);
      if names[k - 1] == x {
        assert CountUpTo(names, x, k) == c + 1;
        RepeatOneMore(Lookup(m, x), cui, c);
      } else {
        assert CountUpTo(names, x, k) == c;
      }
    }
  }

  /** One more repetition at the end. */
  lemma RepeatOneMore(a: seq<String>, cui: String, c: nat)
    ensures (a + Repeat(cui, c)) + [cui] == a + Repeat(cui, c + 1)
  {
    assert Repeat(cui, c + 1) == Repeat(cui, c) + [cui];
  }

  /** Recording names never leaves an entry empty. */
  lemma {:induction false} RecordNamesNoEmpty(m: Str2Cui, names: seq<String>, cui: String, k: nat)
    requires k <= |names| && NoEmptyEntries(m)
    ensures NoEmptyEntries(RecordNamesUpTo(m, names, cui, k))
    decreases k
  {
    if k > 0 {
      RecordNamesNoEmpty(m, names, cui, k - 1);
      RecordLookup(RecordNamesUpTo(m, names, cui, k - 1), names[k - 1], cui, names[k - 1]);
    }
  }

  /** After `n` entries, the cuis recorded for a name are the reference's, and no entry is empty. */
  lemma {:induction false} InvertLookup(cui2str: Dict<String, CuiNames>, n: nat, x: String)
    requires n <= |cui2str|
    ensures NoEmptyEntries(InvertUpTo(cui2str, n))
    ensures Lookup(InvertUpTo(cui2str, n), x) == CuisOf(cui2str, x, n)
    decreases n
  {
    if n > 0 {
      InvertLookup(cui2str, n - 1, x);
      var e := cui2str[n - 1];
      RecordNamesLookup(InvertUpTo(cui2str, n - 1), NamesOf(e.1), e.0, |NamesOf(e.1)|, x);
      RecordNamesNoEmpty(InvertUpTo(cui2str, n - 1), NamesOf(e.1), e.0, |NamesOf(e.1)|);
    }
  }

  /** The entry `e` is that of `cui` and lists `name`. */
  predicate EntryLists(e: (String, CuiNames), cui: String, name: String) {
    e.0 == cui && name in NamesOf(e.1)
  }

  /** A cui is among the reference's cuis for a name exactly when one of the entries of that cui lists the name. */
  lemma {:induction false} CuisOfMembership(cui2str: Dict<String, CuiNames>, name: String, n: nat, cui: String)
    requires n <= |cui2str|
    ensures cui in CuisOf(cui2str, name, n) <==> exists i :: 0 <= i < n && EntryLists(cui2str[i], cui, name)
    decreases n
  {
    if n > 0 {
      CuisOfMembership(cui2str, name, n - 1, cui);
      var e := cui2str[n - 1];
      var names := NamesOf(e.1);
      RepeatMembership(e.0, Occurrences(names, name), cui);
      CountPositive(names, name, |names|);
      assert names[..|names|] == names;
      if exists i :: 0 <= i < n - 1 && EntryLists(cui2str[i], cui, name) {
        var i :| 0 <= i < n - 1 && EntryLists(cui2str[i], cui, name);
        assert 0 <= i < n;
      }
      if EntryLists(e, cui, name) {
        assert 0 <= n - 1 < n && EntryLists(cui2str[n - 1], cui, name);
      }
      if exists i :: 0 <= i < n && EntryLists(cui2str[i], cui, name) {
        var i :| 0 <= i < n && EntryLists(cui2str[i], cui, name);
        if i < n - 1 {
          assert 0 <= i < n - 1;
        }
      }
    }
  }

  /** The inversion of the whole of `cui2str`. */
  function Invert(cui2str: Dict<String, CuiNames>): Str2Cui {
    InvertUpTo(cui2str, |cui2str|)
  }

  /**
   * A name has an entry exactly when some cui lists it, and its cuis come in
   * the iteration order of `cui2str`, a cui recorded once per time its list
   * names the name.
   */
  lemma InvertOrder(cui2str: Dict<String, CuiNames>, name: String)
    ensures name in Invert(cui2str) <==> CuisOf(cui2str, name, |cui2str|) != []
    ensures name in Invert(cui2str) ==> Invert(cui2str)[name] == CuisOf(cui2str, name, |cui2str|)
  {
    InvertLookup(cui2str, |cui2str|, name);
  }

  /** `cui` is recorded under `name` exactly when the value of `cui` is `name` or a list containing it. */
  lemma InvertMembership(cui2str: Dict<String, CuiNames>, name: String, cui: String)
    ensures (name in Invert(cui2str) && cui in Invert(cui2str)[name]) <==>
      exists i :: 0 <= i < |cui2str| && cui2str[i].0 == cui
        && (cui2str[i].1 == OneName(name) || (cui2str[i].1.NameList? && name in cui2str[i].1.names))
  {
    InvertOrder(cui2str, name);
    CuisOfMembership(cui2str, name, |cui2str|, cui);
    assert forall i :: 0 <= i < |cui2str| ==>
      (EntryLists(cui2str[i], cui, name) <==>
        (cui2str[i].0 == cui
         && (cui2str[i].1 == OneName(name) || (cui2str[i].1.NameList? && name in cui2str[i].1.names))));
  }

  /** With the distinct keys of a Python dict, membership reads `cui2str[cui]` directly. */
  lemma InvertMembershipByKey(cui2str: Dict<String, CuiNames>, name: String, cui: String)
    requires DistinctKeys(cui2str)
    ensures (name in Invert(cui2str) && cui in Invert(cui2str)[name]) <==>
      Get(cui2str, cui).Some? && name in NamesOf(Get(cui2str, cui).value)
  {
    InvertOrder(cui2str, name);
    CuisOfMembership(cui2str, name, |cui2str|, cui);
    var g := Get(cui2str, cui);
    if g.Some? {
      var j :| 0 <= j < |cui2str| && cui2str[j] == (cui, g.value);
      assert forall i :: 0 <= i < |cui2str| && EntryLists(cui2str[i], cui, name) ==> i == j;
    } else {
      assert forall i :: 0 <= i < |cui2str| ==> Keys(cui2str)[i] == cui2str[i].0;
    }
  }

  /**
   * The dictionary part of `load_dictionary(config)`: `cui2str` is returned
   * as loaded, together with its inversion built by the nested loop.
   */
  method LoadDictionary(cui2str: Dict<String, CuiNames>) returns (loaded: Dict<String, CuiNames>, str2cui: Str2Cui)
    ensures loaded == cui2str
    ensures str2cui == Invert(cui2str)
  {
    str2cui := map[];
    for i := 0 to |cui2str|
      invariant str2cui == InvertUpTo(cui2str, i)
    {
      var cui := cui2str[i].0;
      var value := cui2str[i].1;
      ghost var before := str2cui;
      if value.NameList? {
        var names := value.names;
        for j := 0 to |names|
          invariant str2cui == RecordNamesUpTo(before, names, cui, j)
        {
          str2cui := RecordName(str2cui, names[j], cui);
        }
        assert NamesOf(value) == names;
      } else {
        str2cui := RecordName(str2cui, value.name, cui);
        assert NamesOf(value) == [value.name];
        assert RecordNamesUpTo(before, [value.name], cui, 1) == Record(before, value.name, cui);
      }
      assert cui2str[i] == (cui, value);
    }
    loaded := cui2str;
  }

  /** The body shared by both branches of the loop: append the cui to the name's list, or start one. */
  method RecordName(str2cui: Str2Cui, name: String, cui: String) returns (r: Str2Cui)
    ensures r == Record(str2cui, name, cui)
    ensures Lookup(r, name) == Lookup(str2cui, name) + [cui]
    ensures forall x :: x != name ==> Lookup(r, x) == Lookup(str2cui, x)
  {
    if name in str2cui {
      r := str2cui[name := str2cui[name] + [cui]];
    } else {
      r := str2cui[name := [cui]];
    }
  }

  // ---------------------------------------------------------------------
  // Sets to lists

  /** The JSON-like values the function walks: sets hold scalars, dicts are keyed by strings. */
  datatype PyValue =
    | Scalar(s: String)
    | SetOf(members: set<String>)
    | ListOf(items: seq<PyValue>)
    | DictOf(entries: seq<(String, PyValue)>)

  /** No set occurs anywhere in the value. */
  predicate NoSets(v: PyValue)
    decreases v
  {
    match v
    case Scalar(_) => true
    case SetOf(_) => false
    case ListOf(items) => forall i :: 0 <= i < |items| ==> NoSets(items[i])
    case DictOf(entries) => forall i :: 0 <= i < |entries| ==> NoSets(entries[i].1)
  }

  /**
   * `convert_sets_to_lists(obj)`. `list(s)` follows the set's iteration
   * order, which Python does not fix: `listOf` is that order.
   */
  function ConvertSetsToLists(v: PyValue, listOf: set<String> -> seq<String>): (r: PyValue)
    ensures v.Scalar? ==> r == v
    ensures v.SetOf? ==> (r.ListOf? && |r.items| == |listOf(v.members)|
      && forall i :: 0 <= i < |r.items| ==> r.items[i] == Scalar(listOf(v.members)[i]))
    ensures v.ListOf? ==> r.ListOf? && |r.items| == |v.items|
    ensures v.DictOf? ==> r.DictOf? && Keys(r.entries) == Keys(v.entries)
    decreases v
  {
    match v
    case Scalar(_) => v
    case SetOf(members) =>
      var l := listOf(members);
      ListOf(seq(|l|, i requires 0 <= i < |l| => Scalar(l[i])))
    case ListOf(items) =>
      ListOf(seq(|items|, i requires 0 <= i < |items| => ConvertSetsToLists(items[i], listOf)))
    case DictOf(entries) =>
      var r := seq(|entries|, i requires 0 <= i < |entries| => (entries[i].0, ConvertSetsToLists(entries[i].1, listOf)));
      assert Keys(r) == Keys(entries);
      DictOf(r)
  }

  /** The result holds no set, at any depth. */
  lemma {:induction false} ConvertLeavesNoSets(v: PyValue, listOf: set<String> -> seq<String>)
    ensures NoSets(ConvertSetsToLists(v, listOf))
    decreases v
  {
    match v
    case Scalar(_) =>
    case SetOf(_) =>
    case ListOf(items) =>
      forall i | 0 <= i < |items| ensures NoSets(ConvertSetsToLists(v, listOf).items[i]) {
        ConvertLeavesNoSets(items[i], listOf);
      }
    case DictOf(entries) =>
      forall i | 0 <= i < |entries| ensures NoSets(ConvertSetsToLists(v, listOf).entries[i].1) {
        ConvertLeavesNoSets(entries[i].1, listOf);
      }
  }

  /** A value without sets comes back unchanged; so converting twice is converting once. */
  lemma {:induction false} ConvertWithoutSets(v: PyValue, listOf: set<String> -> seq<String>)
    requires NoSets(v)
    ensures ConvertSetsToLists(v, listOf) == v
    decreases v
  {
    match v
    case Scalar(_) =>
    case SetOf(_) =>
    case ListOf(items) =>
      forall i | 0 <= i < |items| ensures ConvertSetsToLists(items[i], listOf) == items[i] {
        ConvertWithoutSets(items[i], listOf);
      }
      assert ConvertSetsToLists(v, listOf).items == items;
    case DictOf(entries) =>
      forall i | 0 <= i < |entries| ensures ConvertSetsToLists(entries[i].1, listOf) == entries[i].1 {
        ConvertWithoutSets(entries[i].1, listOf);
      }
      assert ConvertSetsToLists(v, listOf).entries == entries;
  }

  lemma ConvertIdempotent(v: PyValue, listOf: set<String> -> seq<String>)
    ensures ConvertSetsToLists(ConvertSetsToLists(v, listOf), listOf) == ConvertSetsToLists(v, listOf)
  {
    ConvertLeavesNoSets(v, listOf);
    ConvertWithoutSets(ConvertSetsToLists(v, listOf), listOf);
  }

  /** When `listOf` lists each member once, a set becomes a list of as many scalars, namely its members. */
  lemma ConvertSetListsMembers(members: set<String>, listOf: set<String> -> seq<String>)
    requires forall x :: x in listOf(members) <==> x in members
    requires forall i, j :: 0 <= i < j < |listOf(members)| ==> listOf(members)[i] != listOf(members)[j]
    ensures var r := ConvertSetsToLists(SetOf(members), listOf);
      |r.items| == |members| && forall x :: Scalar(x) in r.items <==> x in members
  {
    var l := listOf(members);
    var r := ConvertSetsToLists(SetOf(members), listOf);
    DistinctCard(l, members);
    forall x ensures Scalar(x) in r.items <==> x in members {
      if x in members {
        var i :| 0 <= i < |l| && l[i] == x;
        assert r.items[i] == Scalar(x);
      }
    }
  }

  /** A list of distinct elements has as many elements as the set it lists. */
  lemma {:induction false} DistinctCard(l: seq<String>, s: set<String>)
    requires forall x :: x in l <==> x in s
    requires forall i, j :: 0 <= i < j < |l| ==> l[i] != l[j]
    ensures |l| == |s|
    decreases |l|
  {
    if |l| > 0 {
      var last := l[|l| - 1];
      var init := l[..|l| - 1];
      assert last !in init;
      assert forall x :: x in init <==> x in s - {last} by {
        assert forall x :: x in l <==> x in init || x == last;
      }
      DistinctCard(init, s - {last});
    } else {
      assert forall x :: x !in s;
      assert s == {};
    }
  }

  // ---------------------------------------------------------------------
  // Label lines

  /** The characters `strip('\n')` removes. */
  const Newline: set<char> := {'\n'}

  /** `set(line.strip('\n').replace('+', '|').split('|'))`: the cuis of one label line. */
  function LabelSet(line: String): set<String> {
    var pieces := Split(Replace(StripChars(line, Newline), "+", "|"), "|");
    set p | p in pieces
  }

  /** A character missing from a string is missing from everything that occurs in it. */
  lemma ContainsLacks(s: String, p: String, c: char)
    requires Contains(s, p) && c !in s
    ensures c !in p
  {
    var i :| 0 <= i <= |s| && OccursAt(s, p, i);
    forall k | 0 <= k < |p| ensures p[k] != c {
      assert p[k] == s[i..i + |p|][k] == s[i + k];
    }
  }

  /** No cui of a label line holds "|" or "+". */
  lemma LabelsLackSeparators(line: String)
    ensures forall l :: l in LabelSet(line) ==> '|' !in l && '+' !in l
  {
    var stripped := StripChars(line, Newline);
    ReplaceChar(stripped, '+', '|');
    var mapped := MapChar(stripped, '+', '|');
    var pieces := Split(mapped, "|");
    assert '+' !in mapped;
    SplitPiecesLackSep(mapped, "|");
    SplitPiecesOccur(mapped, "|");
    forall l | l in pieces ensures '|' !in l && '+' !in l {
      ContainsChar(l, '|');
      ContainsLacks(mapped, l, '+');
    }
  }

  /** Appending a newline and stripping newlines gives back a string without newlines. */
  lemma StripNewline(s: String)
    requires '\n' !in s
    ensures StripChars(s + "\n", Newline) == s
  {
    var t := s + "\n";
    if |s| == 0 {
      assert t == "\n" && t[1..] == [];
      assert TrimLeft(t, Newline) == [];
    } else {
      assert t[0] == s[0] && t[0] !in Newline;
      assert TrimLeft(t, Newline) == t;
      assert t[..|t| - 1] == s;
      assert s[|s| - 1] !in Newline;
      assert TrimRight(s, Newline) == s;
      assert TrimRight(t, Newline) == TrimRight(s, Newline);
    }
  }

  /** Writing cuis joined by "|" on a line and reading the line back gives the set of those cuis. */
  lemma LabelLineRoundTrip(cuis: seq<String>)
    requires |cuis| >= 1
    requires forall c :: c in cuis ==> '|' !in c && '+' !in c && '\n' !in c
    ensures LabelSet(Join(cuis, "|") + "\n") == set c | c in cuis
  {
    var s := Join(cuis, "|");
    JoinLacksChar(cuis, "|", '\n');
    JoinLacksChar(cuis, "|", '+');
    LabelLinePieces(s);
    SplitJoinChar(cuis, '|');
  }

  /** A line without "+" and newlines inside reads as the set of its "|"-separated pieces. */
  lemma LabelLinePieces(s: String)
    requires '\n' !in s && '+' !in s
    ensures LabelSet(s + "\n") == set p | p in Split(s, "|")
  {
    StripNewline(s);
    ReplaceChar(s, '+', '|');
    MapCharAbsent(s, '+', '|');
  }

  /** Mapping a character that does not occur changes nothing. */
  lemma MapCharAbsent(s: String, a: char, b: char)
    requires a !in s
    ensures MapChar(s, a, b) == s
  {
    forall i | 0 <= i < |s| ensures MapChar(s, a, b)[i] == s[i] {
      assert s[i] in s;
    }
  }
}
