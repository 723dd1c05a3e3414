/**
 * The local day folder as the uploader sees it: a tree of files and
 * directories, the order `sorted(local_dir.iterdir())` visits a directory's
 * entries in, and the file count that `count_files_recursive` takes.
 */
module LocalTree {
  import opened Wrappers

  /** File contents are opaque bytes; only their identity matters remotely. */
  type Blob = seq<bv8>

  /**
   * A local filesystem entry. `guessedType` is what `mimetypes.guess_type`
   * says for the file's name (`None` when it has no idea).
   */
  datatype Entry =
    | File(name: string, data: Blob, guessedType: Option<string>)
    | Dir(name: string, children: seq<Entry>)

  /** Code-point order on names: how Python compares two `str` values. */
  predicate NameLe(a: string, b: string)
  {
    a == [] || (b != [] && (a[0] < b[0] || (a[0] == b[0] && NameLe(a[1..], b[1..]))))
  }

  lemma {:induction false} NameLeTotal(a: string, b: string)
    ensures NameLe(a, b) || NameLe(b, a)
  {
    if a != [] && b != [] && a[0] == b[0] {
      NameLeTotal(a[1..], b[1..]);
    }
  }

  lemma {:induction false} NameLeTransitive(a: string, b: string, c: string)
    requires NameLe(a, b) && NameLe(b, c)
    ensures NameLe(a, c)
  {
    if a != [] && a[0] == b[0] && b[0] == c[0] {
      NameLeTransitive(a[1..], b[1..], c[1..]);
    }
  }

  /** Every entry's name is at most the next one's. */
  predicate SortedByName(es: seq<Entry>)
  {
    forall k :: 0 < k < |es| ==> NameLe(es[k - 1].name, es[k].name)
  }

  /** Puts `e` in front of the first entry whose name sorts after it. */
  function Insert(e: Entry, es: seq<Entry>): (r: seq<Entry>)
    ensures |r| == |es| + 1
  {
    if es == [] || NameLe(e.name, es[0].name) then [e] + es
    else [es[0]] + Insert(e, es[1..])
  }

  /** The entries of a directory in the order `sorted()` returns them. */
  function SortByName(es: seq<Entry>): (r: seq<Entry>)
    ensures |r| == |es|
  {
    if es == [] then [] else Insert(es[0], SortByName(es[1..]))
  }

  lemma {:induction false} InsertSorted(e: Entry, es: seq<Entry>)
    requires SortedByName(es)
    ensures SortedByName(Insert(e, es))
    ensures Insert(e, es)[0] == e || (es != [] && Insert(e, es)[0] == es[0])
  {
    if es != [] && !NameLe(e.name, es[0].name) {
      NameLeTotal(e.name, es[0].name);
      InsertSorted(e, es[1..]);
    }
  }

  lemma {:induction false} InsertPerm(e: Entry, es: seq<Entry>)
    ensures multiset(Insert(e, es)) == multiset(es) + multiset{e}
  {
    if es != [] && !NameLe(e.name, es[0].name) {
      InsertPerm(e, es[1..]);
      assert es == [es[0]] + es[1..];
    }
  }

  /** `sorted()` puts the entries in name order... */
  lemma {:induction false} SortSorted(es: seq<Entry>)
    ensures SortedByName(SortByName(es))
  {
    if es != [] {
      SortSorted(es[1..]);
      InsertSorted(es[0], SortByName(es[1..]));
    }
  }

  /** ...and keeps every entry, as often as it occurs. */
  lemma {:induction false} SortPerm(es: seq<Entry>)
    ensures multiset(SortByName(es)) == multiset(es)
  {
    if es != [] {
      SortPerm(es[1..]);
      InsertPerm(es[0], SortByName(es[1..]));
      assert es == [es[0]] + es[1..];
    }
  }

  /** Sorting keeps exactly the entries there were. */
  lemma SortedMember(es: seq<Entry>, e: Entry)
    ensures e in SortByName(es) <==> e in es
  {
    SortPerm(es);
    assert e in SortByName(es) <==> e in multiset(SortByName(es));
  }

  /** `count_files_recursive`: the number of files anywhere below `e` (1 for a file). */
  function CountFiles(e: Entry): nat
  {
    match e
    case File(_, _, _) => 1
    case Dir(_, children) => CountAll(children)
  }

  function CountAll(es: seq<Entry>): nat
  {
    if es == [] then 0 else CountFiles(es[0]) + CountAll(es[1..])
  }

  lemma {:induction false} CountAllAppend(a: seq<Entry>, b: seq<Entry>)
    ensures CountAll(a + b) == CountAll(a) + CountAll(b)
  {
    if a != [] {
      assert (a + b)[0] == a[0] && (a + b)[1..] == a[1..] + b;
      CountAllAppend(a[1..], b);
    } else {
      assert a + b == b;
    }
  }

  /** Counting a prefix one entry longer adds that entry's files. */
  lemma CountPrefixStep(es: seq<Entry>, n: nat)
    requires 0 < n <= |es|
    ensures CountAll(es[..n]) == CountAll(es[..n - 1]) + CountFiles(es[n - 1])
  {
    assert es[..n] == es[..n - 1] + [es[n - 1]];
    CountAllAppend(es[..n - 1], [es[n - 1]]);
    assert CountAll([es[n - 1]]) == CountFiles(es[n - 1]) by {
      assert [es[n - 1]][1..] == [];
    }
  }

  lemma {:induction false} CountInsert(e: Entry, es: seq<Entry>)
    ensures CountAll(Insert(e, es)) == CountFiles(e) + CountAll(es)
  {
    if es != [] && !NameLe(e.name, es[0].name) {
      CountInsert(e, es[1..]);
    }
  }

  /** Visiting a directory in sorted order meets as many files as it holds. */
  lemma {:induction false} CountSorted(es: seq<Entry>)
    ensures CountAll(SortByName(es)) == CountAll(es)
  {
    if es != [] {
      CountSorted(es[1..]);
      CountInsert(es[0], SortByName(es[1..]));
    }
  }

  /** The first entry of a directory listing called `name`, if any. */
  function Lookup(es: seq<Entry>, name: string): (r: Option<Entry>)
    ensures r.Some? ==> r.value in es && r.value.name == name
    ensures r.None? <==> forall e :: e in es ==> e.name != name
  {
    if es == [] then None
    else if es[0].name == name then Some(es[0])
    else Lookup(es[1..], name)
  }

  /** The index of the first `/` in `s`, or `|s|` when there is none. */
  function FirstSlash(s: string): (i: nat)
    ensures i <= |s|
    ensures forall k :: 0 <= k < i ==> s[k] != '/'
    ensures i < |s| ==> s[i] == '/'
  {
    if s == [] || s[0] == '/' then 0 else 1 + FirstSlash(s[1..])
  }

  /** The first `/` of `a + c`: inside `a` when `a` has one, else the first of `c`. */
  lemma {:induction false} FirstSlashAppend(a: string, c: string)
    ensures FirstSlash(a + c) == if FirstSlash(a) < |a| then FirstSlash(a) else |a| + FirstSlash(c)
  {
    if a != [] && a[0] != '/' {
      assert (a + c)[0] == a[0] && (a + c)[1..] == a[1..] + c;
      FirstSlashAppend(a[1..], c);
    } else if a == [] {
      assert a + c == c;
    }
  }

  /** One piece between separators, as a component: empty pieces and `.` are dropped. */
  function Component(piece: string): (ps: seq<string>)
    ensures ps == [] <==> piece == [] || piece == "."
    ensures ps != [] ==> ps == [piece]
  {
    if piece == [] || piece == "." then [] else [piece]
  }

  /**
   * The components `pathlib` keeps of a relative path: the pieces between
   * `/` separators, with empty pieces and `.` dropped. `..` is kept as it is.
   */
  function Parts(s: string): (ps: seq<string>)
    decreases |s|
  {
    if s == [] then []
    else
      var i := FirstSlash(s);
      Component(s[..i]) + (if i < |s| then Parts(s[i + 1..]) else [])
  }

  /** Every component is a non-empty name without a separator, and not `.`. */
  lemma {:induction false} PartsNames(s: string)
    ensures forall p :: p in Parts(s) ==> p != [] && p != "." && '/' !in p
    decreases |s|
  {
    if s != [] {
      var i := FirstSlash(s);
      PartsUnfold(s);
      if i < |s| {
        PartsNames(s[i + 1..]);
        assert '/' !in s[..i] by {
          forall k | 0 <= k < i ensures s[..i][k] != '/' { }
        }
      } else {
        assert s[..i] == s;
      }
    }
  }

  /** A name with no separator that is neither empty nor `.` is a single component. */
  lemma PartsName(s: string)
    requires s != [] && s != "." && '/' !in s
    ensures Parts(s) == [s]
  {
    assert FirstSlash(s) == |s|;
    assert s[..|s|] == s;
  }

  /** `Parts` of a non-empty path: its first piece, then the components after the first `/`. */
  lemma PartsUnfold(s: string)
    requires s != []
    ensures FirstSlash(s) < |s| ==> Parts(s) == Component(s[..FirstSlash(s)]) + Parts(s[FirstSlash(s) + 1..])
    ensures FirstSlash(s) == |s| ==> Parts(s) == Component(s)
  {
    assert s[..|s|] == s;
  }

  /** A piece with no `/`, joined to `b`: its component, then those of `b`. */
  lemma PartsJoinPiece(a: string, b: string)
    requires FirstSlash(a) == |a|
    ensures Parts(a + "/" + b) == Parts(a) + Parts(b)
  {
    var s := a + "/" + b;
    assert s == a + ("/" + b);
    FirstSlashAppend(a, "/" + b);
    assert s[..|a|] == a && s[|a| + 1..] == b;
    PartsUnfold(s);
    if a != [] {
      PartsUnfold(a);
    }
  }

  /** The relative path that names the components `ps` in turn, one `/` between each. */
  function JoinPath(ps: seq<string>): (s: string)
    ensures ps == [] ==> s == []
    ensures ps != [] ==> ps[0] <= s
    ensures |ps| > 1 ==> |ps[0]| < |s| && s[|ps[0]|] == '/'
  {
    if ps == [] then []
    else if |ps| == 1 then ps[0]
    else ps[0] + "/" + JoinPath(ps[1..])
  }

  /** Splitting a joined path gives the components back, when each is a proper name. */
  lemma {:induction false} PartsJoinPath(ps: seq<string>)
    requires forall k :: 0 <= k < |ps| ==> ps[k] != [] && ps[k] != "." && '/' !in ps[k]
    ensures Parts(JoinPath(ps)) == ps
  {
    if ps != [] {
      PartsName(ps[0]);
      if |ps| > 1 {
        assert FirstSlash(ps[0]) == |ps[0]|;
        PartsJoinPiece(ps[0], JoinPath(ps[1..]));
        PartsJoinPath(ps[1..]);
        assert [ps[0]] + ps[1..] == ps;
      }
    }
  }

  /**
   * Following the components `ps` down from `e`: a missing name, or a file
   * where a directory is needed, leads nowhere.
   */
  function Resolve(e: Entry, ps: seq<string>): (r: Option<Entry>)
    ensures ps == [] ==> r == Some(e)
    ensures e.File? && ps != [] ==> r.None?
    ensures r.Some? && ps != [] ==> r.value.name == ps[|ps| - 1]
    ensures |ps| == 1 && e.Dir? ==> r == Lookup(e.children, ps[0])
    decreases |ps|
  {
    if ps == [] then Some(e)
    else if e.File? then None
    else match Lookup(e.children, ps[0])
      case None => None
      case Some(c) => Resolve(c, ps[1..])
  }

  /** Following `a + b` is following `a`, then `b` from wherever `a` led. */
  lemma {:induction false} ResolveAppend(e: Entry, a: seq<string>, b: seq<string>)
    ensures Resolve(e, a + b) == match Resolve(e, a)
      case None => None
      case Some(m) => Resolve(m, b)
    decreases |a|
  {
    if a != [] {
      assert (a + b)[0] == a[0] && (a + b)[1..] == a[1..] + b;
      if e.Dir? {
        match Lookup(e.children, a[0])
        case None =>
        case Some(c) => ResolveAppend(c, a[1..], b);
      }
    } else {
      assert a + b == b;
    }
  }

  /** Python's `Path.suffix`: from the last dot on, unless that dot starts or ends the name. */
  function Suffix(name: string): (r: string)
    ensures r == [] || (1 < |r| < |name| && r == name[|name| - |r|..] && r[0] == '.' && '.' !in r[1..])
  {
    var i := LastDot(name, |name|);
    if 0 < i < |name| - 1 then name[i..] else []
  }

  /**
   * The suffix is the end of the name from its last dot on, and it is
   * non-empty exactly when that dot neither starts nor ends the name.
   */
  lemma SuffixShape(name: string)
    ensures Suffix(name) != [] <==> 0 < LastDot(name, |name|) < |name| - 1
    ensures Suffix(name) != [] ==> Suffix(name) == name[LastDot(name, |name|)..]
  {
  }

  /** The index of the last `.` in `name[..n]`, or -1 when there is none. */
  function LastDot(name: string, n: nat): (i: int)
    requires n <= |name|
    ensures -1 <= i < n
    ensures i >= 0 ==> name[i] == '.'
    ensures forall k :: i < k < n ==> name[k] != '.'
  {
    if n == 0 then -1
    else if name[n - 1] == '.' then n - 1
    else LastDot(name, n - 1)
  }

  /** `entry.name[:40]`: the label the progress bar shows. */
  function Truncate40(name: string): (r: string)
    ensures |r| <= 40 && r <= name
    ensures |name| <= 40 ==> r == name
  {
    if |name| <= 40 then name else name[..40]
  }
}
