/** `Config`: layered configuration files of one directory, read in an order that follows from their names. */
module Config {
  import opened CppString

  datatype ConfigValue = Null | Bool(b: bool) | Integer(i: int) | Unsigned(u: nat) | Double(d: real) | Text(s: string)

  type ConfigValues = map<string, ConfigValue>

  /** A member of a flattened JSON document: its JSON pointer, and its value if that is of a supported type. */
  datatype Entry = Entry(pointer: string, value: Option<ConfigValue>)

  datatype Content = CannotOpen | Malformed | Flat(entries: seq<Entry>)

  /** What a directory lists. */
  datatype File = File(name: string, isRegular: bool, content: Content)

  /** The index of the last dot, or -1. */
  function LastDot(name: string): (i: int)
    ensures -1 <= i < |name|
  {
    if name == "" then -1 else if name[|name| - 1] == '.' then |name| - 1 else LastDot(name[..|name| - 1])
  }

  /** A leading dot does not begin an extension. */
  function Stem(name: string): string {
    if LastDot(name) <= 0 then name else name[..LastDot(name)]
  }

  function Extension(name: string): string {
    if LastDot(name) <= 0 then "" else name[LastDot(name)..]
  }

  predicate IsJson(f: File) {
    Extension(f.name) == ".json"
  }

  function ConfigEnv(variable: Option<string>): string {
    if variable.Some? then variable.value else "development"
  }

  function Layers(env: string): seq<string> {
    ["default", env, "local", "local-" + env]
  }

  /** The first position of a name, or the length. */
  function Position(order: seq<string>, name: string): (p: nat)
    ensures p <= |order| && (p < |order| ==> order[p] == name)
    ensures forall k | 0 <= k < p :: order[k] != name
  {
    if order == [] then 0 else if order[0] == name then 0 else 1 + Position(order[1..], name)
  }

  /** Paths in one directory compare by their file names. */
  predicate NameLess(a: string, b: string) {
    b != "" && (a == "" || a[0] < b[0] || (a[0] == b[0] && NameLess(a[1..], b[1..])))
  }

  /** The comparator of the sort. */
  predicate Less(order: seq<string>, a: File, b: File) {
    var i, j := Position(order, Stem(a.name)), Position(order, Stem(b.name));
    if i == |order| && j == |order| then NameLess(a.name, b.name)
    else if i == |order| then false
    else if j == |order| then true
    else i < j
  }

  predicate Equivalent(order: seq<string>, a: File, b: File) {
    !Less(order, a, b) && !Less(order, b, a)
  }

  lemma {:induction false} NameLessIrreflexive(a: string)
    ensures !NameLess(a, a)
  {
    if a != "" {
      NameLessIrreflexive(a[1..]);
    }
  }

  lemma {:induction false} NameLessTransitive(a: string, b: string, c: string)
    requires NameLess(a, b) && NameLess(b, c)
    ensures NameLess(a, c)
  {
    if a != "" && a[0] == b[0] == c[0] {
      NameLessTransitive(a[1..], b[1..], c[1..]);
    }
  }

  lemma {:induction false} NameLessTotal(a: string, b: string)
    ensures NameLess(a, b) || NameLess(b, a) || a == b
  {
    if a != "" && b != "" && a[0] == b[0] {
      NameLessTotal(a[1..], b[1..]);
      assert a == [a[0]] + a[1..] && b == [b[0]] + b[1..];
    }
  }

  /** The comparator is a strict weak order, which the sort requires. */
  lemma LessIsStrictWeakOrder(order: seq<string>, a: File, b: File, c: File)
    ensures !Less(order, a, a)
    ensures Less(order, a, b) && Less(order, b, c) ==> Less(order, a, c)
    ensures Equivalent(order, a, b) && Equivalent(order, b, c) ==> Equivalent(order, a, c)
  {
    hide NameLess, Stem;
    NameLessIrreflexive(a.name);
    if NameLess(a.name, b.name) && NameLess(b.name, c.name) {
      NameLessTransitive(a.name, b.name, c.name);
    }
    NameLessTotal(a.name, b.name);
    NameLessTotal(b.name, c.name);
  }

  /** Ties are files of one listed stem: among JSON files, only a file with itself. */
  lemma JsonFilesDoNotTie(order: seq<string>, a: File, b: File)
    requires IsJson(a) && IsJson(b) && Equivalent(order, a, b)
    ensures a.name == b.name
  {
    NameLessTotal(a.name, b.name);
    StemAndExtension(a.name);
    StemAndExtension(b.name);
    hide Stem, Extension, NameLess;
  }

  lemma StemAndExtension(name: string)
    ensures Stem(name) + Extension(name) == name
  {
  }

  /** In one directory a name stands for one file. */
  predicate NamesTell(files: seq<File>) {
    forall f, g | f in files && g in files && f.name == g.name :: f == g
  }

  function RegularFiles(listing: seq<File>): seq<File> {
    if listing == [] then []
    else
      var last := listing[|listing| - 1];
      RegularFiles(listing[..|listing| - 1]) + if last.isRegular then [last] else []
  }

  function JsonFiles(files: seq<File>): seq<File> {
    if files == [] then []
    else
      var last := files[|files| - 1];
      JsonFiles(files[..|files| - 1]) + if IsJson(last) then [last] else []
  }

  predicate IsSorted(order: seq<string>, files: seq<File>) {
    forall i, j | 0 <= i < j < |files| :: !Less(order, files[j], files[i])
  }

  /** What a sort, stable or not, may make of the regular files of a directory. */
  predicate IsSorting(order: seq<string>, listing: seq<File>, files: seq<File>) {
    multiset(files) == multiset(RegularFiles(listing)) && IsSorted(order, files)
  }

  lemma {:induction false} RegularFilesCount(listing: seq<File>, f: File)
    ensures multiset(RegularFiles(listing))[f] == if f.isRegular then multiset(listing)[f] else 0
  {
    if listing != [] {
      RegularFilesCount(listing[..|listing| - 1], f);
      assert listing == listing[..|listing| - 1] + [listing[|listing| - 1]];
    }
  }

  lemma {:induction false} JsonFilesCount(files: seq<File>, f: File)
    ensures multiset(JsonFiles(files))[f] == if IsJson(f) then multiset(files)[f] else 0
    ensures f in JsonFiles(files) <==> f in files && IsJson(f)
  {
    hide IsJson;
    if files != [] {
      JsonFilesCount(files[..|files| - 1], f);
      assert files == files[..|files| - 1] + [files[|files| - 1]];
    }
  }

  lemma {:induction false} JsonFilesAreSorted(order: seq<string>, files: seq<File>)
    requires IsSorted(order, files)
    ensures IsSorted(order, JsonFiles(files))
  {
    hide IsJson, Less;
    if files != [] {
      var rest, last := files[..|files| - 1], files[|files| - 1];
      JsonFilesAreSorted(order, rest);
      forall f | f in JsonFiles(rest)
        ensures !Less(order, last, f)
      {
        JsonFilesCount(rest, f);
      }
    }
  }

  /** A sequence is determined by its order and its elements when only equal elements tie. */
  lemma {:induction false} SortedIsUnique(order: seq<string>, a: seq<File>, b: seq<File>)
    requires IsSorted(order, a) && IsSorted(order, b) && multiset(a) == multiset(b)
    requires forall f, g | f in a && g in a && Equivalent(order, f, g) :: f == g
    ensures a == b
  {
    hide Less, Equivalent;
    if a != [] {
      FirstsTie(order, a, b);
      RestsAgree(a, b);
      SortedIsUnique(order, a[1..], b[1..]);
    } else {
      assert |multiset(b)| == |b|;
    }
  }

  lemma FirstsTie(order: seq<string>, a: seq<File>, b: seq<File>)
    requires IsSorted(order, a) && IsSorted(order, b) && multiset(a) == multiset(b) && a != []
    ensures b != [] && Equivalent(order, a[0], b[0]) && b[0] in a
  {
    hide Less;
    assert a[0] in multiset(b);
    assert b[0] in multiset(b) && b[0] in multiset(a);
    LessIsStrictWeakOrder(order, a[0], b[0], a[0]);
  }

  lemma RestsAgree(a: seq<File>, b: seq<File>)
    requires a != [] && b != [] && multiset(a) == multiset(b) && a[0] == b[0]
    ensures multiset(a[1..]) == multiset(b[1..])
  {
    assert a == [a[0]] + a[1..] && b == [b[0]] + b[1..];
    assert multiset(a[1..]) == multiset(a) - multiset{a[0]} == multiset(b[1..]);
  }

  /** The JSON files come in one sequence only, whatever the order of the listing and the sort. */
  lemma JsonSequenceIsUnique(order: seq<string>, listing1: seq<File>, listing2: seq<File>,
                             files1: seq<File>, files2: seq<File>)
    requires NamesTell(listing1) && multiset(listing1) == multiset(listing2)
    requires IsSorting(order, listing1, files1) && IsSorting(order, listing2, files2)
    ensures JsonFiles(files1) == JsonFiles(files2)
  {
    var a, b := JsonFiles(files1), JsonFiles(files2);
    forall f
      ensures multiset(a)[f] == multiset(b)[f]
      ensures f in a ==> f in listing1 && IsJson(f)
    {
      JsonFilesCount(files1, f);
      JsonFilesCount(files2, f);
      RegularFilesCount(listing1, f);
      RegularFilesCount(listing2, f);
      assert f in a <==> f in multiset(a);
      assert f in listing1 <==> f in multiset(listing1);
    }
    forall f, g | f in a && g in a && Equivalent(order, f, g)
      ensures f == g
    {
      JsonFilesDoNotTie(order, f, g);
    }
    JsonFilesAreSorted(order, files1);
    JsonFilesAreSorted(order, files2);
    SortedIsUnique(order, a, b);
  }

  /** The key of a JSON pointer: without its first character, and with dots for slashes. */
  function NormalizeConfigKey(pointer: string): Option<string> {
    if pointer == "" then None else Some(Dotted(pointer[1..]))
  }

  function Dotted(s: string): string {
    if s == "" then "" else [if s[0] == '/' then '.' else s[0]] + Dotted(s[1..])
  }

  predicate IsLoadable(e: Entry) {
    NormalizeConfigKey(e.pointer).Some? && e.value.Some?
  }

  predicate ContentIsLoadable(c: Content) {
    c.CannotOpen? || (c.Flat? && forall k | 0 <= k < |c.entries| :: IsLoadable(c.entries[k]))
  }

  /** The value that a file's last entry for a key gives it. */
  function ValueIn(entries: seq<Entry>, key: string): Option<ConfigValue> {
    if entries == [] then None
    else
      var last := entries[|entries| - 1];
      if last.value.Some? && NormalizeConfigKey(last.pointer) == Some(key) then last.value
      else ValueIn(entries[..|entries| - 1], key)
  }

  function ContentValue(c: Content, key: string): Option<ConfigValue> {
    if c.Flat? then ValueIn(c.entries, key) else None
  }

  /** The value that the last file for a key gives it. */
  function LastValue(files: seq<File>, key: string): Option<ConfigValue> {
    if files == [] then None
    else if ContentValue(files[|files| - 1].content, key).Some? then ContentValue(files[|files| - 1].content, key)
    else LastValue(files[..|files| - 1], key)
  }

  function Lookup(values: ConfigValues, key: string): Option<ConfigValue> {
    if key in values then Some(values[key]) else None
  }

  function Or<T>(a: Option<T>, b: Option<T>): Option<T> {
    if a.Some? then a else b
  }

  /** Every key has its value from the last of the files that gives it one, or else the value it had. */
  ghost predicate Layered(values: ConfigValues, files: seq<File>, before: ConfigValues) {
    forall key :: Lookup(values, key) == Or(LastValue(files, key), Lookup(before, key))
  }

  ghost predicate Overlaid(values: ConfigValues, c: Content, before: ConfigValues) {
    forall key :: Lookup(values, key) == Or(ContentValue(c, key), Lookup(before, key))
  }

  datatype GetResult = Found(value: ConfigValue) | WrongType | NotFound

  class Configuration {
    var values: ConfigValues

    constructor ()
      ensures values == map[]
    {
      values := map[];
    }

    /** A file that cannot be opened is skipped; one that cannot be understood is an error, and what was
        read of it before stays. */
    method LoadConfigFile(content: Content) returns (ok: bool)
      modifies this
      ensures ok <==> ContentIsLoadable(content)
      ensures content.CannotOpen? ==> ok && values == old(values)
      ensures content.Malformed? ==> !ok && values == old(values)
      ensures content.Flat? ==>
        (ok <==> forall k | 0 <= k < |content.entries| ::
           content.entries[k].pointer != "" && content.entries[k].value.Some?)
      ensures ok ==> Overlaid(values, content, old(values))
    {
      if content.CannotOpen? {
        return true;
      }
      if content.Malformed? {
        return false;
      }
      var entries := content.entries;
      var i := 0;
      assert entries[..0] == [];
      while i < |entries|
        invariant i <= |entries|
        invariant forall k | 0 <= k < i :: IsLoadable(entries[k])
        invariant forall key :: Lookup(values, key) == Or(ValueIn(entries[..i], key), Lookup(old(values), key))
      {
        var key := NormalizeConfigKey(entries[i].pointer);
        if key.None? || entries[i].value.None? {
          return false;
        }
        assert entries[..i + 1][..i] == entries[..i];
        values := values[key.value := entries[i].value.value];
        i := i + 1;
      }
      assert entries[..|entries|] == entries;
      return true;
    }

    /** The loop over the sorted files of the configuration directory. */
    method LoadFiles(all: seq<File>) returns (ok: bool)
      modifies this
      ensures ok <==> forall k | 0 <= k < |all| && IsJson(all[k]) :: ContentIsLoadable(all[k].content)
      ensures ok ==> Layered(values, JsonFiles(all), old(values))
    {
      hide *;
      NoFiles(values);
      var i := 0;
      assert all[..0] == [];
      while i < |all|
        invariant i <= |all|
        invariant forall k | 0 <= k < i && IsJson(all[k]) :: ContentIsLoadable(all[k].content)
        invariant Layered(values, JsonFiles(all[..i]), old(values))
      {
        ghost var before := values;
        OneMoreFile(all, i);
        if IsJson(all[i]) {
          var loaded := LoadConfigFile(all[i].content);
          if !loaded {
            return false;
          }
          LayerAdded(old(values), before, values, JsonFiles(all[..i]), all[i]);
        }
        i := i + 1;
      }
      assert all[..|all|] == all;
      return true;
    }

    /** Without a configuration directory nothing is loaded. */
    method Load(files: Option<seq<File>>) returns (ok: bool)
      modifies this
      ensures files.None? ==> ok && values == old(values)
      ensures files.Some? ==>
        (ok <==> forall k | 0 <= k < |files.value| && IsJson(files.value[k]) ::
           ContentIsLoadable(files.value[k].content))
      ensures files.Some? && ok ==> Layered(values, JsonFiles(files.value), old(values))
    {
      hide *;
      if files.None? {
        return true;
      }
      ok := LoadFiles(files.value);
    }

    /** Once files have been loaded: whether any of them has the key. */
    method Has(key: string) returns (found: bool)
      ensures forall files | Layered(values, files, map[]) :: found <==> LastValue(files, key).Some?
      ensures found <==> key in values
    {
      LoadedValue(values, key);
      return key in values;
    }

    /** The value of a key when it is of the wanted kind: the program throws for a missing key, and for one of
        another kind. */
    method GetAs(key: string, kind: ConfigValue -> bool) returns (result: GetResult)
      ensures result.Found? <==> key in values && kind(values[key])
      ensures result.Found? ==> result.value == values[key]
      ensures result == NotFound <==> key !in values
      ensures result == WrongType <==> key in values && !kind(values[key])
    {
      if key !in values {
        return NotFound;
      }
      return if kind(values[key]) then Found(values[key]) else WrongType;
    }

    /** The value of a key, or nothing where the program throws: once files have been loaded, the value that
        the last of them gives to the key. */
    method Get(key: string) returns (value: Option<ConfigValue>)
      ensures forall files | Layered(values, files, map[]) :: value == LastValue(files, key)
      ensures value.Some? <==> key in values
      ensures value.Some? ==> value.value == values[key]
    {
      LoadedValue(values, key);
      if key in values {
        return Some(values[key]);
      }
      return None;
    }
  }

  lemma LoadedValue(values: ConfigValues, key: string)
    ensures forall files | Layered(values, files, map[]) :: LastValue(files, key) == Lookup(values, key)
  {
    hide LastValue;
  }

  lemma OneMoreFile(files: seq<File>, i: nat)
    requires i < |files|
    ensures IsJson(files[i]) ==> JsonFiles(files[..i + 1]) == JsonFiles(files[..i]) + [files[i]]
    ensures !IsJson(files[i]) ==> JsonFiles(files[..i + 1]) == JsonFiles(files[..i])
  {
    assert files[..i + 1][..i] == files[..i];
  }

  lemma NoFiles(values: ConfigValues)
    ensures Layered(values, JsonFiles([]), values)
  {
  }

  /** One more file on top. */
  lemma LayerAdded(start: ConfigValues, before: ConfigValues, after: ConfigValues, files: seq<File>, f: File)
    requires Layered(before, files, start) && Overlaid(after, f.content, before)
    ensures Layered(after, files + [f], start)
  {
    hide ContentValue, Lookup;
    assert (files + [f])[..|files|] == files;
  }

  /** A configuration does not depend on how the directory was listed or sorted. */
  lemma LoadedValuesAreUnique(order: seq<string>, listing1: seq<File>, listing2: seq<File>,
                              files1: seq<File>, files2: seq<File>,
                              values1: ConfigValues, values2: ConfigValues, before: ConfigValues)
    requires NamesTell(listing1) && multiset(listing1) == multiset(listing2)
    requires IsSorting(order, listing1, files1) && IsSorting(order, listing2, files2)
    requires Layered(values1, JsonFiles(files1), before) && Layered(values2, JsonFiles(files2), before)
    ensures values1 == values2
  {
    JsonSequenceIsUnique(order, listing1, listing2, files1, files2);
    forall key: string
      ensures key in values1 <==> key in values2
      ensures key in values1 ==> values1[key] == values2[key]
    {
      assert Lookup(values1, key) == Lookup(values2, key);
    }
  }

  /** The file that comes last among the ones with a value for a key decides it. */
  lemma {:induction false} LastFileDecides(order: seq<string>, files: seq<File>, f: File, key: string)
    requires IsSorted(order, files) && f in files && ContentValue(f.content, key).Some?
    requires forall g | g in files && g != f && ContentValue(g.content, key).Some? :: Less(order, g, f)
    ensures LastValue(files, key) == ContentValue(f.content, key)
  {
    hide Less, ContentValue;
    var rest, last := files[..|files| - 1], files[|files| - 1];
    if last != f {
      var i :| 0 <= i < |files| && files[i] == f;
      assert rest[i] == f && !Less(order, last, files[i]);
      LastFileDecides(order, rest, f, key);
    }
  }

  /** A JSON file of the directory decides a key when every other one that has it comes before: a later
      layer wins over an earlier one, and files that are no layer win over all layers, in their order. */
  lemma HighestLayerDecides(order: seq<string>, listing: seq<File>, files: seq<File>,
                            values: ConfigValues, before: ConfigValues, f: File, key: string)
    requires IsSorting(order, listing, files) && Layered(values, JsonFiles(files), before)
    requires f in listing && f.isRegular && IsJson(f) && ContentValue(f.content, key).Some?
    requires forall g | g in listing && g.isRegular && IsJson(g) && g != f && ContentValue(g.content, key).Some? ::
      Less(order, g, f)
    ensures key in values && Some(values[key]) == ContentValue(f.content, key)
  {
    hide Less, ContentValue, IsJson;
    forall g
      ensures g in JsonFiles(files) <==> g in listing && g.isRegular && IsJson(g)
    {
      JsonFilesCount(files, g);
      RegularFilesCount(listing, g);
      assert g in files <==> g in multiset(files);
      assert g in listing <==> g in multiset(listing);
    }
    JsonFilesAreSorted(order, files);
    LastFileDecides(order, JsonFiles(files), f, key);
    assert Lookup(values, key) == Or(LastValue(JsonFiles(files), key), Lookup(before, key));
  }

  /** Where a file comes, from its name: the layers first, in their order; then the others by name. */
  lemma PlacesOfFiles(variable: Option<string>, a: File, b: File)
    ensures var env := if variable.Some? then variable.value else "development";
      var order, s, t := Layers(ConfigEnv(variable)), Stem(a.name), Stem(b.name);
      && (s == "default" && t == env && env != "default" ==> Less(order, a, b))
      && (s == env && t == "local" && env != "local" ==> Less(order, a, b))
      && (s == "default" && t == "local" ==> Less(order, a, b))
      && ((s == "default" || s == env || s == "local") && t == "local-" + env ==> Less(order, a, b))
      && (s in order && t !in order ==> Less(order, a, b))
      && (s !in order && t !in order ==> (Less(order, a, b) <==> NameLess(a.name, b.name)))
  {
    hide Stem, NameLess;
    var env := ConfigEnv(variable);
    var order := Layers(env);
    assert order[0] == "default" && order[1] == env && order[2] == "local" && order[3] == "local-" + env;
    assert |order[3]| == |env| + 6 && order[3][0] == 'l' && order[0][0] == 'd' && |order[2]| == 5;
    hide ConfigEnv;
  }

  // What names and pointers mean.

  lemma {:induction false} LastDotIs(a: string, b: string)
    requires '.' !in b
    ensures LastDot(a + "." + b) == |a|
  {
    var s := a + "." + b;
    if b == "" {
      assert s[|s| - 1] == '.';
    } else {
      assert s[..|s| - 1] == a + "." + b[..|b| - 1] && s[|s| - 1] == b[|b| - 1];
      LastDotIs(a, b[..|b| - 1]);
    }
  }

  lemma {:induction false} NoDot(s: string)
    requires '.' !in s
    ensures LastDot(s) == -1
  {
    if s != "" {
      assert s[|s| - 1] in s;
      NoDot(s[..|s| - 1]);
    }
  }

  /** A name is what is before its last dot, and an extension; a name that begins with its only dot has none. */
  lemma NamesAreCut(stem: string, extension: string)
    requires '.' !in extension
    ensures stem != "" ==>
      Stem(stem + "." + extension) == stem && Extension(stem + "." + extension) == "." + extension
    ensures Stem("." + extension) == "." + extension && Extension("." + extension) == ""
    ensures Stem(extension) == extension && Extension(extension) == ""
  {
    var name := stem + "." + extension;
    LastDotIs(stem, extension);
    LastDotIs("", extension);
    NoDot(extension);
    assert "" + "." + extension == "." + extension;
    assert name[..|stem|] == stem && name[|stem|..] == "." + extension;
  }

  /** A JSON file has a name in front of `.json`. */
  lemma JsonByName(f: File)
    ensures IsJson(f) <==> |f.name| > 5 && f.name[|f.name| - 5..] == ".json"
  {
    StemAndExtension(f.name);
    if |f.name| > 5 && f.name[|f.name| - 5..] == ".json" {
      var stem := f.name[..|f.name| - 5];
      assert f.name == stem + "." + "json";
      NamesAreCut(stem, "json");
    }
  }

  /** Names compare by their first difference, and a shorter one comes first. */
  lemma {:induction false} FirstDifferenceDecides(prefix: string, c: char, x: string, d: char, y: string)
    requires c < d
    ensures NameLess(prefix + [c] + x, prefix + [d] + y) && NameLess(prefix, prefix + [c] + x)
  {
    var a, b := prefix + [c] + x, prefix + [d] + y;
    if prefix != "" {
      assert a[1..] == prefix[1..] + [c] + x && b[1..] == prefix[1..] + [d] + y;
      FirstDifferenceDecides(prefix[1..], c, x, d, y);
    }
  }

  function Pointer(names: seq<string>): string {
    if names == [] then "" else Pointer(names[..|names| - 1]) + "/" + names[|names| - 1]
  }

  function Joined(names: seq<string>): string
    requires names != []
  {
    if |names| == 1 then names[0] else Joined(names[..|names| - 1]) + "." + names[|names| - 1]
  }

  lemma {:induction false} DottedInTurn(a: string, b: string)
    ensures Dotted(a + b) == Dotted(a) + Dotted(b)
  {
    if a == "" {
      assert a + b == b;
    } else {
      assert (a + b)[1..] == a[1..] + b;
      DottedInTurn(a[1..], b);
    }
  }

  lemma {:induction false} NothingToDot(s: string)
    requires '/' !in s
    ensures Dotted(s) == s
  {
    if s != "" {
      NothingToDot(s[1..]);
      assert s == [s[0]] + s[1..];
    }
  }

  /** The key of a member is the names on the way to it, with dots between them. */
  lemma {:induction false} KeyOfMember(names: seq<string>)
    requires names != [] && forall k | 0 <= k < |names| :: '/' !in names[k]
    ensures Pointer(names) != "" && NormalizeConfigKey(Pointer(names)) == Some(Joined(names))
    decreases |names|
  {
    hide Dotted;
    var last := names[|names| - 1];
    NothingToDot(last);
    if |names| == 1 {
      assert Pointer(names[..0]) == "" && ("" + "/" + last)[1..] == last;
    } else {
      var rest := names[..|names| - 1];
      KeyOfMember(rest);
      assert Pointer(names)[1..] == Pointer(rest)[1..] + ("/" + last);
      DottedInTurn(Pointer(rest)[1..], "/" + last);
      DottedInTurn("/", last);
      SlashIsDotted();
      assert Joined(rest) + ("." + last) == Joined(rest) + "." + last;
    }
  }

  lemma SlashIsDotted()
    ensures Dotted("/") == "."
  {
  }
}
