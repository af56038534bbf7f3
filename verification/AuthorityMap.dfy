/**
 * The contract authority map: an error-collecting validator over raw JSON groups,
 * each of which assigns some contracts to a primary authority.
 */
module AuthorityMap {
  import opened Text
  import opened Ordering

  datatype Value =
    | Null
    | Scalar(n: int)
    | Str(s: string)
    | List(items: seq<Value>)
    | Record(fields: map<string, Value>)

  /** The vocabulary a map is validated against. */
  datatype Config = Config(scopes: set<string>, kinds: set<string>, authorities: set<string>, documents: set<string>)

  /** `v.get(key)`; a missing key is Python's None, like a JSON null. */
  function Get(v: Value, key: string): Value {
    if v.Record? && key in v.fields then v.fields[key] else Null
  }

  predicate Hashable(v: Value) { !v.List? && !v.Record? }

  predicate IsIn(v: Value, names: set<string>) { v.Str? && v.s in names }

  predicate NonEmpty(v: Value) { v.Str? && v.s != "" }

  predicate Ascending(xs: seq<string>) {
    forall i, j | 0 <= i < j < |xs| :: StrLeq(xs[i], xs[j])
  }

  predicate Distinct(xs: seq<string>) {
    forall i, j | 0 <= i < j < |xs| :: xs[i] != xs[j]
  }

  function Texts(items: seq<Value>): seq<string>
    requires forall i | 0 <= i < |items| :: items[i].Str?
  {
    seq(|items|, i requires 0 <= i < |items| => items[i].s)
  }

  function Values(texts: seq<string>): seq<Value> {
    seq(|texts|, i requires 0 <= i < |texts| => Str(texts[i]))
  }

  // --------------------------------------------------------------- error checks

  function Unless(ok: bool, message: string): seq<string> { if ok then [] else [message] }

  const GROUP_FIELDS := {
    "group_id", "scope", "kind", "names",
    "primary_authority", "supporting_authorities", "consumer_authorities", "sources" }

  const SOURCE_FIELDS := {"document", "section"}

  function AuthorityListErrors(config: Config, v: Value, primary: Value): seq<string> {
    if !v.List? then ["must be a list"]
    else if exists i | 0 <= i < |v.items| :: !v.items[i].Str? then ["must contain authority strings only"]
    else
      var names := Texts(v.items);
      Unless(forall i | 0 <= i < |names| :: names[i] in config.authorities, "contains invalid authorities")
      + Unless(Distinct(names), "contains duplicate authorities")
      + Unless(Ascending(names), "must be sorted")
      + Unless(primary !in v.items, "must not contain primary_authority")
  }

  function NamesErrors(v: Value): seq<string> {
    if !v.List? || v.items == [] then ["names must be a non-empty list"]
    else if exists i | 0 <= i < |v.items| :: !NonEmpty(v.items[i]) then ["names must contain non-empty strings only"]
    else if !Ascending(Texts(v.items)) then ["names must be sorted"]
    else Unless(Distinct(Texts(v.items)), "names contains duplicate contracts")
  }

  /** The names a group is taken to list: none when they are malformed. */
  function NamesOf(v: Value): seq<string> {
    if v.List? && forall i | 0 <= i < |v.items| :: NonEmpty(v.items[i]) then Texts(v.items) else []
  }

  function SourceErrors(config: Config, v: Value): seq<string> {
    if !v.Record? then ["source must be an object"]
    else if v.fields.Keys != SOURCE_FIELDS then ["source must contain only document and section"]
    else
      Unless(IsIn(v.fields["document"], config.documents), "source document is invalid")
      + Unless(NonEmpty(v.fields["section"]), "source section must be a non-empty string")
  }

  function SourcesErrors(config: Config, items: seq<Value>): seq<string> {
    if items == [] then [] else SourceErrors(config, items[0]) + SourcesErrors(config, items[1..])
  }

  predicate Overlap(a: Value, b: Value) {
    a.List? && b.List? && exists i, j | 0 <= i < |a.items| && 0 <= j < |b.items| :: a.items[i] == b.items[j]
  }

  predicate IdFits(id: string, scope: string, kind: string, primary: string) {
    var prefix := Lower(scope) + "." + kind + "." + primary;
    id == prefix || prefix + "." <= id
  }

  function IdErrors(config: Config, v: Value): seq<string> {
    var id, scope, kind, primary := Get(v, "group_id"), Get(v, "scope"), Get(v, "kind"), Get(v, "primary_authority");
    Unless(NonEmpty(id), "group_id must be a non-empty string")
    + Unless(IsIn(scope, config.scopes), "scope is invalid")
    + Unless(IsIn(kind, config.kinds), "kind is invalid")
    + Unless(IsIn(primary, config.authorities), "primary_authority is invalid")
    + Unless(IsIn(scope, config.scopes) && IsIn(kind, config.kinds) && primary.Str? && id.Str?
             ==> IdFits(id.s, scope.s, kind.s, primary.s), "group_id must start with its prefix")
  }

  function AuthoritiesErrors(config: Config, v: Value): seq<string> {
    var primary := Get(v, "primary_authority");
    var supporting, consumers := Get(v, "supporting_authorities"), Get(v, "consumer_authorities");
    AuthorityListErrors(config, supporting, primary)
    + AuthorityListErrors(config, consumers, primary)
    + Unless(!Overlap(supporting, consumers), "does not distinguish supporting and consumer authorities")
  }

  /** The checks on one group that do not look at other groups. */
  function GroupErrors(config: Config, v: Value): seq<string> {
    if !v.Record? then ["must be an object"]
    else
      var sources := Get(v, "sources");
      Unless(GROUP_FIELDS <= v.fields.Keys, "missing fields")
      + Unless(v.fields.Keys <= GROUP_FIELDS, "has unknown fields")
      + IdErrors(config, v)
      + NamesErrors(Get(v, "names"))
      + AuthoritiesErrors(config, v)
      + (if sources.List? && sources.items != [] then SourcesErrors(config, sources.items)
         else ["sources must be a non-empty list"])
  }

  /** Python can order the two: both are numbers or both are texts. */
  predicate Comparable(a: Value, b: Value) { (a.Scalar? && b.Scalar?) || (a.Str? && b.Str?) }

  /** Two different values in both lists that cannot be sorted together. */
  predicate MixedOverlap(a: seq<Value>, b: seq<Value>) {
    exists x, y | x in a && y in a :: x in b && y in b && x != y && !Comparable(x, y)
  }

  /** Comparing the two lists raises: an element cannot go into a set, or the common elements cannot be sorted. */
  predicate OverlapRaises(supporting: Value, consumers: Value) {
    && supporting.List? && consumers.List?
    && (|| (exists x | x in supporting.items + consumers.items :: !Hashable(x))
        || MixedOverlap(supporting.items, consumers.items))
  }

  /** Checking the group raises instead of collecting: an unhashable value is looked up, or the overlap fails. */
  predicate Raises(v: Value) {
    v.Record? &&
    (|| !Hashable(Get(v, "scope")) || !Hashable(Get(v, "kind")) || !Hashable(Get(v, "primary_authority"))
     || OverlapRaises(Get(v, "supporting_authorities"), Get(v, "consumer_authorities"))
     || (&& Get(v, "sources").List?
         && exists x | x in Get(v, "sources").items ::
              x.Record? && x.fields.Keys == SOURCE_FIELDS && !Hashable(x.fields["document"])))
  }

  // --------------------------------------------------------------- valid groups

  datatype Source = Source(document: string, section: string)

  datatype Group = Group(
    id: string, scope: string, kind: string, names: seq<string>, primary: string,
    supporting: seq<string>, consumers: seq<string>, sources: seq<Source>)

  function EncodeSource(s: Source): Value {
    Record(map["document" := Str(s.document), "section" := Str(s.section)])
  }

  function EncodeSources(ss: seq<Source>): seq<Value> {
    seq(|ss|, i requires 0 <= i < |ss| => EncodeSource(ss[i]))
  }

  /** The raw value is this group, field by field, and has no other field. */
  predicate Spells(v: Value, g: Group) {
    && v.Record? && v.fields.Keys == GROUP_FIELDS
    && Get(v, "group_id") == Str(g.id) && Get(v, "scope") == Str(g.scope) && Get(v, "kind") == Str(g.kind)
    && Get(v, "names") == List(Values(g.names)) && Get(v, "primary_authority") == Str(g.primary)
    && Get(v, "supporting_authorities") == List(Values(g.supporting))
    && Get(v, "consumer_authorities") == List(Values(g.consumers))
    && Get(v, "sources") == List(EncodeSources(g.sources))
  }

  /** Known authorities, each once, in order. */
  predicate Lists(config: Config, xs: seq<string>) {
    (forall i | 0 <= i < |xs| :: xs[i] in config.authorities) && Ascending(xs) && Distinct(xs)
  }

  predicate Valid(config: Config, g: Group) {
    && g.id != "" && g.scope in config.scopes && g.kind in config.kinds && IdFits(g.id, g.scope, g.kind, g.primary)
    && GoodNames(g.names)
    && g.primary in config.authorities
    && Lists(config, g.supporting) && Lists(config, g.consumers)
    && g.primary !in g.supporting && g.primary !in g.consumers
    && (forall x | x in g.supporting :: x !in g.consumers)
    && g.sources != []
    && GoodSources(config, g.sources)
  }

  lemma ValuesOfTexts(items: seq<Value>)
    requires forall i | 0 <= i < |items| :: items[i].Str?
    ensures Values(Texts(items)) == items
  {
  }

  lemma TextsOfValues(xs: seq<string>)
    ensures Texts(Values(xs)) == xs
    ensures forall x: string :: Str(x) in Values(xs) <==> x in xs
  {
    forall x: string ensures Str(x) in Values(xs) <==> x in xs {
      if x in xs {
        var i :| 0 <= i < |xs| && xs[i] == x;
        assert Values(xs)[i] == Str(x);
      }
    }
  }

  predicate GoodNames(xs: seq<string>) {
    xs != [] && (forall i | 0 <= i < |xs| :: xs[i] != "") && Ascending(xs) && Distinct(xs)
  }

  lemma NamesDecode(v: Value) returns (xs: seq<string>)
    requires NamesErrors(v) == []
    ensures v == List(Values(xs)) && GoodNames(xs)
  {
    hide Ascending, Distinct;
    xs := Texts(v.items);
    ValuesOfTexts(v.items);
  }

  lemma NamesEncode(xs: seq<string>)
    requires GoodNames(xs)
    ensures NamesErrors(List(Values(xs))) == []
  {
    hide Ascending, Distinct;
    TextsOfValues(xs);
  }

  lemma AuthoritiesCheck(config: Config, v: Value, primary: string)
    ensures AuthorityListErrors(config, v, Str(primary)) == [] <==>
      exists xs: seq<string> :: v == List(Values(xs)) && Lists(config, xs) && primary !in xs
  {
    hide Ascending, Distinct;
    if AuthorityListErrors(config, v, Str(primary)) == [] {
      ValuesOfTexts(v.items);
      TextsOfValues(Texts(v.items));
    }
    if xs: seq<string> :| v == List(Values(xs)) && Lists(config, xs) && primary !in xs {
      TextsOfValues(xs);
    }
  }

  lemma SourceCheck(config: Config, v: Value)
    ensures SourceErrors(config, v) == [] <==>
      exists s: Source :: v == EncodeSource(s) && s.document in config.documents && s.section != ""
  {
    if SourceErrors(config, v) == [] {
      var s := Source(v.fields["document"].s, v.fields["section"].s);
      assert EncodeSource(s).fields.Keys == SOURCE_FIELDS;
      assert v.fields == EncodeSource(s).fields;
    }
    if s: Source :| v == EncodeSource(s) && s.document in config.documents && s.section != "" {
      assert v.fields.Keys == SOURCE_FIELDS;
    }
  }

  predicate GoodSources(config: Config, ss: seq<Source>) {
    forall i | 0 <= i < |ss| :: ss[i].document in config.documents && ss[i].section != ""
  }

  lemma {:induction false} SourcesDecode(config: Config, items: seq<Value>) returns (ss: seq<Source>)
    requires SourcesErrors(config, items) == []
    ensures items == EncodeSources(ss) && GoodSources(config, ss)
  {
    hide SourceErrors, EncodeSource;
    if items == [] {
      ss := [];
    } else {
      SourceCheck(config, items[0]);
      var s: Source :| items[0] == EncodeSource(s) && s.document in config.documents && s.section != "";
      var rest := SourcesDecode(config, items[1..]);
      ss := [s] + rest;
    }
  }

  lemma {:induction false} SourcesEncode(config: Config, ss: seq<Source>)
    requires GoodSources(config, ss)
    ensures SourcesErrors(config, EncodeSources(ss)) == []
  {
    hide SourceErrors, EncodeSource;
    if ss != [] {
      SourceCheck(config, EncodeSource(ss[0]));
      SourcesEncode(config, ss[1..]);
      assert EncodeSources(ss)[1..] == EncodeSources(ss[1..]);
    }
  }

  lemma OverlapCheck(a: seq<string>, b: seq<string>)
    ensures Overlap(List(Values(a)), List(Values(b))) <==> exists x | x in a :: x in b
  {
    if x :| x in a && x in b {
      var i :| 0 <= i < |a| && a[i] == x;
      var j :| 0 <= j < |b| && b[j] == x;
      assert Values(a)[i] == Values(b)[j];
    }
    if Overlap(List(Values(a)), List(Values(b))) {
      var i, j :| 0 <= i < |a| && 0 <= j < |b| && Values(a)[i] == Values(b)[j];
      assert a[i] in a && a[i] in b;
    }
  }

  /** The list of errors is empty when every check finds none. */
  lemma NoErrors(config: Config, v: Value)
    ensures GroupErrors(config, v) == [] <==>
      && v.Record? && v.fields.Keys == GROUP_FIELDS
      && IdErrors(config, v) == [] && NamesErrors(Get(v, "names")) == [] && AuthoritiesErrors(config, v) == []
      && Get(v, "sources").List? && Get(v, "sources").items != []
      && SourcesErrors(config, Get(v, "sources").items) == []
  {
    hide IdErrors, NamesErrors, AuthoritiesErrors, SourcesErrors, Get;
  }

  lemma IdsCheck(config: Config, v: Value)
    ensures IdErrors(config, v) == [] <==>
      && NonEmpty(Get(v, "group_id")) && IsIn(Get(v, "scope"), config.scopes) && IsIn(Get(v, "kind"), config.kinds)
      && IsIn(Get(v, "primary_authority"), config.authorities)
      && IdFits(Get(v, "group_id").s, Get(v, "scope").s, Get(v, "kind").s, Get(v, "primary_authority").s)
  {
    hide IdFits, Get;
  }

  lemma AuthoritiesClean(config: Config, v: Value)
    ensures AuthoritiesErrors(config, v) == [] <==>
      && AuthorityListErrors(config, Get(v, "supporting_authorities"), Get(v, "primary_authority")) == []
      && AuthorityListErrors(config, Get(v, "consumer_authorities"), Get(v, "primary_authority")) == []
      && !Overlap(Get(v, "supporting_authorities"), Get(v, "consumer_authorities"))
  {
    hide AuthorityListErrors, Overlap, Get;
  }

  /** No error on a group means that it spells a valid one. */
  lemma GroupDecodes(config: Config, v: Value) returns (g: Group)
    requires GroupErrors(config, v) == []
    ensures Spells(v, g) && Valid(config, g)
  {
    hide GoodNames, Ascending, Distinct, IdFits, GroupErrors, IdErrors, NamesErrors;
    hide AuthoritiesErrors, AuthorityListErrors, SourcesErrors, Overlap, Get, Values, GoodSources;
    NoErrors(config, v);
    IdsCheck(config, v);
    AuthoritiesClean(config, v);
    var primary := Get(v, "primary_authority").s;
    var names := NamesDecode(Get(v, "names"));
    AuthoritiesCheck(config, Get(v, "supporting_authorities"), primary);
    var supporting: seq<string> :|
      && Get(v, "supporting_authorities") == List(Values(supporting))
      && Lists(config, supporting) && primary !in supporting;
    AuthoritiesCheck(config, Get(v, "consumer_authorities"), primary);
    var consumers: seq<string> :|
      && Get(v, "consumer_authorities") == List(Values(consumers))
      && Lists(config, consumers) && primary !in consumers;
    OverlapCheck(supporting, consumers);
    var sources := SourcesDecode(config, Get(v, "sources").items);
    g := Group(Get(v, "group_id").s, Get(v, "scope").s, Get(v, "kind").s,
               names, primary, supporting, consumers, sources);
  }

  /** And a value that spells a valid group has no errors. */
  lemma GroupEncodes(config: Config, v: Value, g: Group)
    requires Spells(v, g) && Valid(config, g)
    ensures GroupErrors(config, v) == []
  {
    hide GoodNames, Ascending, Distinct, IdFits, GroupErrors, IdErrors, NamesErrors;
    hide AuthoritiesErrors, AuthorityListErrors, SourcesErrors, Overlap, Get, Values, GoodSources;
    NoErrors(config, v);
    IdsCheck(config, v);
    AuthoritiesClean(config, v);
    NamesEncode(g.names);
    AuthoritiesCheck(config, Get(v, "supporting_authorities"), g.primary);
    AuthoritiesCheck(config, Get(v, "consumer_authorities"), g.primary);
    OverlapCheck(g.supporting, g.consumers);
    SourcesEncode(config, g.sources);
  }

  // ------------------------------------------------------------- groups as written

  /** Sorted means that of two names the earlier is a prefix, or lower where they first differ. */
  lemma AscendingByText(xs: seq<string>)
    ensures Ascending(xs) <==> forall i, j | 0 <= i < j < |xs| :: NotAfter(xs[i], xs[j])
  {
    hide StrLeq, NotAfter;
    forall i, j | 0 <= i < j < |xs| ensures StrLeq(xs[i], xs[j]) <==> NotAfter(xs[i], xs[j]) {
      StrLeqByFirstDifference(xs[i], xs[j]);
    }
  }

  /** An id is its scope in small letters, its kind and its primary authority, dotted, and maybe a dot and more. */
  lemma IdByText(id: string, scope: string, kind: string, primary: string)
    ensures IdFits(id, scope, kind, primary) <==>
      exists more :: (more == "" || more[0] == '.') && id == Lower(scope) + "." + kind + "." + primary + more
  {
    var prefix := Lower(scope) + "." + kind + "." + primary;
    hide Lower;
    if IdFits(id, scope, kind, primary) {
      var more := id[|prefix|..];
      assert id == prefix + more;
    }
    if more :| (more == "" || more[0] == '.') && id == prefix + more {
      if more != "" {
        assert more == "." + more[1..];
        assert id == prefix + "." + more[1..];
      } else {
        assert id == prefix;
      }
    }
  }

  /** A group as it is written in the map. */
  function Written(g: Group): map<string, Value> {
    map[
      "group_id" := Str(g.id), "scope" := Str(g.scope), "kind" := Str(g.kind), "names" := List(Values(g.names)),
      "primary_authority" := Str(g.primary), "supporting_authorities" := List(Values(g.supporting)),
      "consumer_authorities" := List(Values(g.consumers)), "sources" := List(EncodeSources(g.sources))]
  }

  lemma WrittenIsSpelled(v: Value, g: Group)
    ensures Spells(v, g) <==> v == Record(Written(g))
  {
    hide Values, EncodeSources;
    var w := Written(g);
    assert w.Keys == GROUP_FIELDS;
    if Spells(v, g) {
      forall k | k in v.fields ensures v.fields[k] == w[k] {
        assert k in GROUP_FIELDS && Get(v, k) == v.fields[k];
      }
      assert v.fields == w;
    }
  }

  /** Exactly the written valid groups have no errors. */
  lemma CleanIsWritten(config: Config, v: Value)
    ensures GroupErrors(config, v) == [] <==> exists g :: v == Record(Written(g)) && Valid(config, g)
  {
    hide GroupErrors, Written, Valid;
    if GroupErrors(config, v) == [] {
      var g := GroupDecodes(config, v);
      WrittenIsSpelled(v, g);
    }
    if g :| v == Record(Written(g)) && Valid(config, g) {
      WrittenIsSpelled(v, g);
      GroupEncodes(config, v, g);
    }
  }

  /** A group that would raise is never free of errors. */
  lemma NoErrorsNoRaise(config: Config, v: Value, g: Group)
    requires Spells(v, g)
    ensures !Raises(v)
  {
    hide Get;
    forall x | x in Values(g.supporting) + Values(g.consumers) ensures x.Str? { }
    forall x | x in Values(g.supporting) ensures x.Str? { }
    forall x | x in EncodeSources(g.sources) && x.Record? && x.fields.Keys == SOURCE_FIELDS
      ensures Hashable(x.fields["document"])
    {
      var i :| 0 <= i < |g.sources| && EncodeSource(g.sources[i]) == x;
    }
  }

  // ------------------------------------------------------------- groups together

  /** The group claims this contract, whatever its scope. */
  predicate Claims(v: Value, kind: string, name: string) {
    v.Record? && Get(v, "kind") == Str(kind) && name in NamesOf(Get(v, "names"))
  }

  predicate Owns(v: Value, scope: string, kind: string, name: string) {
    Get(v, "scope") == Str(scope) && Claims(v, kind, name)
  }

  predicate HasId(v: Value, id: string) { v.Record? && id != "" && Get(v, "group_id") == Str(id) }

  /** Some name is listed twice in a group. */
  predicate Repeats(v: Value) {
    v.Record? && Get(v, "kind").Str? && !Distinct(NamesOf(Get(v, "names")))
  }

  ghost predicate NoClash(groups: seq<Value>, n: nat)
    requires n <= |groups|
  {
    && (forall j, k, id | 0 <= j < k < n :: !(HasId(groups[j], id) && HasId(groups[k], id)))
    && (forall j, k, kind, name | 0 <= j < k < n :: !(Claims(groups[j], kind, name) && Claims(groups[k], kind, name)))
    && (forall k | 0 <= k < n :: !Repeats(groups[k]))
  }

  ghost predicate Clean(config: Config, groups: seq<Value>, n: nat)
    requires n <= |groups|
  {
    (forall k | 0 <= k < n :: GroupErrors(config, groups[k]) == []) && NoClash(groups, n)
  }

  type Inventory = map<(string, string), set<string>>

  /** The inventory holds what the first n groups own, for every known scope and kind. */
  ghost predicate Collected(config: Config, groups: seq<Value>, n: nat, inventory: Inventory)
    requires n <= |groups|
  {
    && (forall s, k :: (s, k) in inventory <==> s in config.scopes && k in config.kinds)
    && (forall s, k, name | (s, k) in inventory ::
          name in inventory[(s, k)] <==> exists i | 0 <= i < n :: Owns(groups[i], s, k, name))
  }

  /** Record one group's claims; errors for those seen before. */
  method ClaimNames(v: Value, seen: set<(string, string)>) returns (errors: seq<string>, seen': set<(string, string)>)
    ensures forall kind, name :: (kind, name) in seen' <==> (kind, name) in seen || Claims(v, kind, name)
    ensures errors == [] <==> !Repeats(v) && forall kind, name :: !(Claims(v, kind, name) && (kind, name) in seen)
  {
    errors, seen' := [], seen;
    if v.Record? && Get(v, "kind").Str? {
      var kind := Get(v, "kind").s;
      var names := NamesOf(Get(v, "names"));
      hide Get, NamesOf;
      for i := 0 to |names|
        invariant forall k, name :: (k, name) in seen' <==> (k, name) in seen || (k == kind && name in names[..i])
        invariant errors == [] <==> Distinct(names[..i]) && forall j | 0 <= j < i :: (kind, names[j]) !in seen
      {
        assert names[..i + 1] == names[..i] + [names[i]];
        DistinctSnoc(names, i);
        if (kind, names[i]) in seen' {
          errors := errors + ["creates duplicate primary ownership"];
        } else {
          seen' := seen' + {(kind, names[i])};
        }
      }
      assert names[..|names|] == names;
    }
  }

  lemma DistinctSnoc(names: seq<string>, i: nat)
    requires i < |names|
    ensures Distinct(names[..i + 1]) <==> Distinct(names[..i]) && names[i] !in names[..i]
  {
    var shorter, longer := names[..i], names[..i + 1];
    if Distinct(longer) {
      forall j, k | 0 <= j < k < i ensures shorter[j] != shorter[k] { assert longer[j] != longer[k]; }
      forall j | 0 <= j < i ensures shorter[j] != names[i] { assert longer[j] != longer[i]; }
    }
    if Distinct(shorter) && names[i] !in shorter {
      forall j, k | 0 <= j < k < i + 1 ensures longer[j] != longer[k] {
        assert longer[j] == shorter[j];
        if k < i {
          assert longer[k] == shorter[k];
        }
      }
    }
  }

  ghost predicate SeenIds(groups: seq<Value>, n: nat, ids: set<string>)
    requires n <= |groups|
  {
    forall id :: id in ids <==> exists k | 0 <= k < n :: HasId(groups[k], id)
  }

  ghost predicate SeenClaims(groups: seq<Value>, n: nat, claims: set<(string, string)>)
    requires n <= |groups|
  {
    forall kind, name :: (kind, name) in claims <==> exists k | 0 <= k < n :: Claims(groups[k], kind, name)
  }

  /** Whether one more group leaves the map clean is decided by what has been seen. */
  lemma CleanStep(config: Config, groups: seq<Value>, i: nat, ids: set<string>, claims: set<(string, string)>)
    requires i < |groups| && SeenIds(groups, i, ids) && SeenClaims(groups, i, claims)
    ensures Clean(config, groups, i + 1) <==>
      && Clean(config, groups, i) && GroupErrors(config, groups[i]) == []
      && (forall id :: HasId(groups[i], id) ==> id !in ids)
      && !Repeats(groups[i]) && (forall kind, name :: !(Claims(groups[i], kind, name) && (kind, name) in claims))
  {
    hide GroupErrors, Repeats, HasId, Claims;
    if Clean(config, groups, i + 1) {
      forall id | HasId(groups[i], id) ensures id !in ids {
        assert forall k | 0 <= k < i :: !HasId(groups[k], id);
      }
      forall kind, name | Claims(groups[i], kind, name) ensures (kind, name) !in claims {
        assert forall k | 0 <= k < i :: !Claims(groups[k], kind, name);
      }
    }
  }

  lemma SeenStep(groups: seq<Value>, i: nat, ids: set<string>, ids': set<string>,
                 claims: set<(string, string)>, claims': set<(string, string)>)
    requires i < |groups| && SeenIds(groups, i, ids) && SeenClaims(groups, i, claims)
    requires forall id :: id in ids' <==> id in ids || HasId(groups[i], id)
    requires forall kind, name :: (kind, name) in claims' <==> (kind, name) in claims || Claims(groups[i], kind, name)
    ensures SeenIds(groups, i + 1, ids') && SeenClaims(groups, i + 1, claims')
  {
    hide HasId, Claims;
    forall id ensures id in ids' <==> exists k | 0 <= k < i + 1 :: HasId(groups[k], id) {
      assert (exists k | 0 <= k < i + 1 :: HasId(groups[k], id)) <==>
             HasId(groups[i], id) || exists k | 0 <= k < i :: HasId(groups[k], id);
    }
    forall kind, name ensures (kind, name) in claims' <==> exists k | 0 <= k < i + 1 :: Claims(groups[k], kind, name) {
      assert (exists k | 0 <= k < i + 1 :: Claims(groups[k], kind, name)) <==>
             Claims(groups[i], kind, name) || exists k | 0 <= k < i :: Claims(groups[k], kind, name);
    }
  }

  /** A group id, remembered; an error when it was seen before. */
  method ClaimId(v: Value, seen: set<string>) returns (errors: seq<string>, seen': set<string>)
    ensures forall id :: id in seen' <==> id in seen || HasId(v, id)
    ensures errors == [] <==> forall id :: HasId(v, id) ==> id !in seen
  {
    errors, seen' := [], seen;
    var id := Get(v, "group_id");
    if v.Record? && NonEmpty(id) {
      assert HasId(v, id.s);
      if id.s in seen {
        errors := ["duplicates group_id"];
      }
      seen' := seen + {id.s};
    }
  }

  function EmptyInventory(config: Config): Inventory {
    map s, k | s in config.scopes && k in config.kinds :: (s, k) := {}
  }

  lemma NothingYet(config: Config, groups: seq<Value>)
    ensures Collected(config, groups, 0, EmptyInventory(config)) && SeenIds(groups, 0, {}) && SeenClaims(groups, 0, {})
    ensures Clean(config, groups, 0)
  {
  }

  method InventoryFromGroups(config: Config, groups: seq<Value>)
    returns (inventory: Inventory, errors: Option<seq<string>>)
    ensures errors.None? <==> exists k | 0 <= k < |groups| :: Raises(groups[k])
    ensures errors.Some? ==> Collected(config, groups, |groups|, inventory)
    ensures errors.Some? ==> (errors.value == [] <==> Clean(config, groups, |groups|))
  {
    inventory := EmptyInventory(config);
    var found: seq<string> := [];
    var seenIds: set<string> := {};
    var seenClaims: set<(string, string)> := {};
    NothingYet(config, groups);
    hide EmptyInventory, GroupErrors, Raises, Repeats, Clean, SeenIds, SeenClaims, Collected, HasId, Claims;
    for i := 0 to |groups|
      invariant forall k | 0 <= k < i :: !Raises(groups[k])
      invariant Collected(config, groups, i, inventory)
      invariant SeenIds(groups, i, seenIds) && SeenClaims(groups, i, seenClaims)
      invariant found == [] <==> Clean(config, groups, i)
    {
      var v := groups[i];
      if Raises(v) {
        return inventory, None;
      }
      CleanStep(config, groups, i, seenIds, seenClaims);
      var duplicates, ids := ClaimId(v, seenIds);
      var clashes, claims := ClaimNames(v, seenClaims);
      var all := found + GroupErrors(config, v) + duplicates + clashes;
      assert all == [] <==> found == [] && GroupErrors(config, v) == [] && duplicates == [] && clashes == [];
      found := all;
      SeenStep(groups, i, seenIds, ids, seenClaims, claims);
      seenIds, seenClaims := ids, claims;
      inventory := CollectNames(config, groups, i, inventory);
    }
    errors := Some(found);
  }

  method CollectNames(config: Config, groups: seq<Value>, i: nat, before: Inventory) returns (inventory: Inventory)
    requires i < |groups| && Collected(config, groups, i, before)
    ensures Collected(config, groups, i + 1, inventory)
  {
    var v := groups[i];
    inventory := before;
    var scope, kind := Get(v, "scope"), Get(v, "kind");
    if v.Record? && IsIn(scope, config.scopes) && IsIn(kind, config.kinds) {
      var key := (scope.s, kind.s);
      inventory := before[key := before[key] + set n | n in NamesOf(Get(v, "names"))];
    }
    CollectedStep(config, groups, i, before, inventory);
  }

  lemma CollectedStep(config: Config, groups: seq<Value>, i: nat, before: Inventory, after: Inventory)
    requires i < |groups| && Collected(config, groups, i, before)
    requires var v := groups[i];
      var (scope, kind) := (Get(v, "scope"), Get(v, "kind"));
      after == if v.Record? && IsIn(scope, config.scopes) && IsIn(kind, config.kinds)
               then before[(scope.s, kind.s) := before[(scope.s, kind.s)] + set n | n in NamesOf(Get(v, "names"))]
               else before
    ensures Collected(config, groups, i + 1, after)
  {
    hide NamesOf, Get;
    forall s, k, name | (s, k) in after
      ensures name in after[(s, k)] <==> exists j | 0 <= j < i + 1 :: Owns(groups[j], s, k, name)
    {
      assert (exists j | 0 <= j < i + 1 :: Owns(groups[j], s, k, name)) <==>
             Owns(groups[i], s, k, name) || exists j | 0 <= j < i :: Owns(groups[j], s, k, name);
    }
  }

  /** Compare the inventory with what is expected, pair by pair. */
  method InventoryErrors(expected: Inventory, actual: Inventory) returns (errors: seq<string>)
    requires expected.Keys <= actual.Keys
    ensures errors == [] <==> forall key | key in expected :: expected[key] == actual[key]
  {
    errors := [];
    var todo := expected.Keys;
    while todo != {}
      invariant todo <= expected.Keys
      invariant errors == [] <==> forall key | key in expected && key !in todo :: expected[key] == actual[key]
    {
      var key :| key in todo;
      if expected[key] - actual[key] != {} {
        errors := errors + ["missing coverage"];
      }
      if actual[key] - expected[key] != {} {
        errors := errors + ["has unexpected contracts"];
      }
      assert expected[key] == actual[key] <==>
        expected[key] - actual[key] == {} && actual[key] - expected[key] == {} by {
        if expected[key] - actual[key] == {} && actual[key] - expected[key] == {} {
          assert forall x | x in expected[key] :: x in actual[key];
          assert forall x | x in actual[key] :: x in expected[key];
        }
      }
      todo := todo - {key};
    }
  }

  // -------------------------------------------------------------- the structure

  /**
   * The structure of an accepted map: valid groups with distinct ids; every expected
   * contract has exactly one owner, and nothing else is owned.
   */
  ghost predicate Structured(config: Config, expected: Inventory, groups: seq<Value>, gs: seq<Group>) {
    && |gs| == |groups|
    && (forall i | 0 <= i < |gs| :: Spells(groups[i], gs[i]) && Valid(config, gs[i]))
    && (forall i, j | 0 <= i < j < |gs| :: gs[i].id != gs[j].id)
    && (forall i, j, name | 0 <= i < j < |gs| && name in gs[i].names && name in gs[j].names :: gs[i].kind != gs[j].kind)
    && (forall s, k, name | (s, k) in expected ::
          name in expected[(s, k)] <==>
          exists i | 0 <= i < |gs| :: gs[i].scope == s && gs[i].kind == k && name in gs[i].names)
  }

  lemma SpelledNames(v: Value, g: Group, config: Config)
    requires Spells(v, g) && Valid(config, g)
    ensures NamesOf(Get(v, "names")) == g.names && !Repeats(v)
    ensures forall kind, name :: Claims(v, kind, name) <==> kind == g.kind && name in g.names
    ensures forall id :: HasId(v, id) <==> id == g.id
    ensures forall s, k, name :: Owns(v, s, k, name) <==> s == g.scope && k == g.kind && name in g.names
  {
    hide Get, IdFits, Lists, GoodSources, EncodeSources;
    TextsOfValues(g.names);
  }

  /** Clean raw groups are exactly the spellings of structured ones. */
  lemma CleanIsStructured(config: Config, expected: Inventory, groups: seq<Value>, inventory: Inventory)
    returns (gs: seq<Group>)
    requires Collected(config, groups, |groups|, inventory) && Clean(config, groups, |groups|)
    requires expected.Keys == inventory.Keys && forall key | key in expected :: expected[key] == inventory[key]
    ensures Structured(config, expected, groups, gs)
  {
    hide GroupErrors, Spells, Valid, Claims, HasId, Owns, Repeats;
    gs := DecodeAll(config, groups);
    forall i | 0 <= i < |gs| {
      SpelledNames(groups[i], gs[i], config);
    }
    forall i, j | 0 <= i < j < |gs| ensures gs[i].id != gs[j].id {
      assert HasId(groups[i], gs[i].id);
    }
    forall i, j, name | 0 <= i < j < |gs| && name in gs[i].names && name in gs[j].names
      ensures gs[i].kind != gs[j].kind
    {
      assert Claims(groups[i], gs[i].kind, name);
    }
    forall s, k, name | (s, k) in expected
      ensures name in expected[(s, k)] <==>
        exists i | 0 <= i < |gs| :: gs[i].scope == s && gs[i].kind == k && name in gs[i].names
    {
      assert name in inventory[(s, k)] <==> exists i | 0 <= i < |groups| :: Owns(groups[i], s, k, name);
      assert forall i | 0 <= i < |gs| ::
        Owns(groups[i], s, k, name) <==> s == gs[i].scope && k == gs[i].kind && name in gs[i].names;
    }
  }

  lemma {:induction false} DecodeAll(config: Config, groups: seq<Value>) returns (gs: seq<Group>)
    requires forall k | 0 <= k < |groups| :: GroupErrors(config, groups[k]) == []
    ensures |gs| == |groups| && forall i | 0 <= i < |gs| :: Spells(groups[i], gs[i]) && Valid(config, gs[i])
  {
    hide GroupErrors, Spells, Valid;
    if groups == [] {
      gs := [];
    } else {
      var n := |groups| - 1;
      gs := DecodeAll(config, groups[..n]);
      var g := GroupDecodes(config, groups[n]);
      gs := gs + [g];
    }
  }

  lemma StructuredIsClean(config: Config, expected: Inventory, groups: seq<Value>, gs: seq<Group>, inventory: Inventory)
    requires Structured(config, expected, groups, gs) && Collected(config, groups, |groups|, inventory)
    requires expected.Keys == inventory.Keys
    ensures Clean(config, groups, |groups|) && forall key | key in expected :: expected[key] == inventory[key]
  {
    hide GroupErrors, Spells, Valid, Claims, HasId, Owns, Repeats;
    forall i | 0 <= i < |gs| ensures GroupErrors(config, groups[i]) == [] {
      GroupEncodes(config, groups[i], gs[i]);
    }
    forall i | 0 <= i < |gs| {
      SpelledNames(groups[i], gs[i], config);
    }
    forall key | key in expected ensures expected[key] == inventory[key] {
      var (s, k) := key;
      forall name ensures name in expected[key] <==> name in inventory[key] {
        assert name in inventory[(s, k)] <==> exists i | 0 <= i < |groups| :: Owns(groups[i], s, k, name);
        assert forall i | 0 <= i < |gs| ::
        Owns(groups[i], s, k, name) <==> s == gs[i].scope && k == gs[i].kind && name in gs[i].names;
      }
    }
  }

  /** The group part of the validator: no errors exactly when the groups spell a structured map. */
  method ValidateGroups(config: Config, expected: Inventory, groups: seq<Value>) returns (errors: Option<seq<string>>)
    requires forall s, k :: (s, k) in expected <==> s in config.scopes && k in config.kinds
    ensures errors == Some([]) <==> exists gs :: Structured(config, expected, groups, gs)
  {
    var inventory, found := InventoryFromGroups(config, groups);
    hide Structured, Clean, Collected, Raises;
    if found.None? {
      errors := None;
      RaisingIsUnstructured(config, expected, groups);
      return;
    }
    KeysAgree(config, expected, groups, inventory);
    var more := InventoryErrors(expected, inventory);
    errors := Some(found.value + more);
    if errors.value == [] {
      var gs := CleanIsStructured(config, expected, groups, inventory);
    }
    if gs :| Structured(config, expected, groups, gs) {
      StructuredIsClean(config, expected, groups, gs, inventory);
    }
  }

  lemma KeysAgree(config: Config, expected: Inventory, groups: seq<Value>, inventory: Inventory)
    requires Collected(config, groups, |groups|, inventory)
    requires forall s, k :: (s, k) in expected <==> s in config.scopes && k in config.kinds
    ensures expected.Keys == inventory.Keys
  {
    forall key ensures key in expected <==> key in inventory {
      var (s, k) := key;
      assert (s, k) in expected <==> (s, k) in inventory;
    }
  }

  lemma RaisingIsUnstructured(config: Config, expected: Inventory, groups: seq<Value>)
    requires exists k | 0 <= k < |groups| :: Raises(groups[k])
    ensures !exists gs :: Structured(config, expected, groups, gs)
  {
    hide Raises, Spells, Valid;
    forall gs ensures !Structured(config, expected, groups, gs) {
      if Structured(config, expected, groups, gs) {
        forall k | 0 <= k < |groups| ensures !Raises(groups[k]) {
          NoErrorsNoRaise(config, groups[k], gs[k]);
        }
      }
    }
  }
}
