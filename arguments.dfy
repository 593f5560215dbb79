/**
 * Property-to-argument translation of ExhibitorServletContextListener:
 * applyProperties, makeArgsBuilder and toArgsArray.
 */
module Arguments {
  import opened Wrappers
  import opened JavaStrings

  /** OUR_PREFIX: only properties whose name starts with it become arguments. */
  const OurPrefix: string := "exhibitor-"

  /**
   * A java.util.Properties object: its own entries and the defaults it was
   * created over (`new Properties(defaults)`).
   */
  datatype Properties = Properties(entries: map<string, string>, defaults: map<string, string>)

  /** Properties.propertyNames enumerates own and default names alike. */
  function PropertyNames(p: Properties): set<string>
  {
    p.entries.Keys + p.defaults.Keys
  }

  /** Properties.getProperty: the own entry, else the default one. */
  function GetProperty(p: Properties, name: string): string
    requires name in PropertyNames(p)
  {
    if name in p.entries then p.entries[name] else p.defaults[name]
  }

  /** The system properties: a bag without defaults. */
  function SystemProperties(system: map<string, string>): Properties
  {
    Properties(system, map[])
  }

  predicate IsOurs(name: string)
  {
    StartsWith(name, OurPrefix)
  }

  /** The "-%s" argument name formatted from a property name with the prefix removed. */
  function ArgName(name: string): (k: string)
    requires IsOurs(name)
  {
    "-" + name[|OurPrefix|..]
  }

  /** The property name an argument name comes from. */
  function PropertyNameOf(k: string): string
    requires |k| >= 1
  {
    OurPrefix + k[1..]
  }

  /** An argument name is a '-' followed by the rest of the property name. */
  predicate IsArgName(k: string)
  {
    |k| >= 1 && k[0] == '-'
  }

  lemma ArgNameRoundTrip(name: string)
    requires IsOurs(name)
    ensures IsArgName(ArgName(name)) && PropertyNameOf(ArgName(name)) == name
  {
    assert name == OurPrefix + name[|OurPrefix|..];
  }

  lemma PropertyNameRoundTrip(k: string)
    requires IsArgName(k)
    ensures IsOurs(PropertyNameOf(k)) && ArgName(PropertyNameOf(k)) == k
  {
    var n := PropertyNameOf(k);
    assert n[..|OurPrefix|] == OurPrefix;
    assert n[|OurPrefix|..] == k[1..];
    assert k == [k[0]] + k[1..];
  }

  /** Distinct property names give distinct argument names. */
  lemma ArgNameInjective(n1: string, n2: string)
    requires IsOurs(n1) && IsOurs(n2) && ArgName(n1) == ArgName(n2)
    ensures n1 == n2
  {
    ArgNameRoundTrip(n1);
    ArgNameRoundTrip(n2);
  }

  /** The entries applyProperties writes for the property names in `names`. */
  function Translation(p: Properties, names: set<string>): map<string, string>
    requires names <= PropertyNames(p)
  {
    map k | k in ArgNamesOf(names) && PropertyNameOf(k) in names :: GetProperty(p, PropertyNameOf(k))
  }

  /** The argument names made from the names in `names` that carry the prefix. */
  function ArgNamesOf(names: set<string>): (ks: set<string>)
    ensures forall k :: k in ks ==> IsArgName(k)
  {
    var ks := set n | n in names && IsOurs(n) :: ArgName(n);
    assert forall k :: k in ks ==> IsArgName(k) by {
      forall k | k in ks ensures IsArgName(k) {
        var n :| n in names && IsOurs(n) && ArgName(n) == k;
        ArgNameRoundTrip(n);
      }
    }
    ks
  }

  /** Everything applyProperties writes for a whole property bag. */
  function Translate(p: Properties): map<string, string>
  {
    Translation(p, PropertyNames(p))
  }

  /**
   * What applyProperties promises: each prefixed name yields its argument,
   * holding that name's value, and nothing else is produced.
   */
  lemma {:induction false} TranslationSpec(p: Properties, names: set<string>)
    requires names <= PropertyNames(p)
    ensures forall n :: n in names && IsOurs(n) ==>
      ArgName(n) in Translation(p, names) && Translation(p, names)[ArgName(n)] == GetProperty(p, n)
    ensures forall k :: k in Translation(p, names) <==> IsArgName(k) && PropertyNameOf(k) in names
  {
    var t := Translation(p, names);
    forall n | n in names && IsOurs(n)
      ensures ArgName(n) in t && t[ArgName(n)] == GetProperty(p, n)
    {
      ArgNameRoundTrip(n);
      assert ArgName(n) in ArgNamesOf(names);
    }
    forall k | IsArgName(k) && PropertyNameOf(k) in names
      ensures k in t
    {
      PropertyNameRoundTrip(k);
      assert k in ArgNamesOf(names);
    }
  }

  /** `order` lists every key of `keys` exactly once. */
  ghost predicate IsOrdering(order: seq<string>, keys: set<string>)
  {
    && (forall i, j :: 0 <= i < j < |order| ==> order[i] != order[j])
    && (forall k :: k in keys <==> k in order)
  }

  /** One turn of applyProperties' loop: put the argument of `name` if it is ours. */
  function Put(args: map<string, string>, p: Properties, name: string): map<string, string>
    requires name in PropertyNames(p)
  {
    if IsOurs(name) then args[ArgName(name) := GetProperty(p, name)] else args
  }

  /** applyProperties with the names enumerated in the order `names`. */
  function ApplyAll(args: map<string, string>, p: Properties, names: seq<string>): map<string, string>
    requires forall i :: 0 <= i < |names| ==> names[i] in PropertyNames(p)
  {
    if names == [] then args
    else Put(ApplyAll(args, p, names[..|names| - 1]), p, names[|names| - 1])
  }

  /**
   * What applyProperties leaves in the map, whatever the enumeration order:
   * each prefixed name's argument with that name's value, no other new key,
   * and every key it does not produce untouched.
   */
  lemma {:induction false} ApplyAllSpec(args: map<string, string>, p: Properties, names: seq<string>)
    requires forall i :: 0 <= i < |names| ==> names[i] in PropertyNames(p)
    ensures var r := ApplyAll(args, p, names);
      && (forall n :: n in names && IsOurs(n) ==> ArgName(n) in r && r[ArgName(n)] == GetProperty(p, n))
      && (forall k :: k in r <==> k in args || (IsArgName(k) && PropertyNameOf(k) in names))
      && (forall k :: k in args && !(IsArgName(k) && PropertyNameOf(k) in names) ==> r[k] == args[k])
  {
    if names != [] {
      var front, last := names[..|names| - 1], names[|names| - 1];
      ApplyAllSpec(args, p, front);
      assert forall n :: n in names <==> n in front || n == last;
      if IsOurs(last) {
        ArgNameRoundTrip(last);
        forall n | n in front && IsOurs(n) && ArgName(n) == ArgName(last) ensures n == last {
          ArgNameInjective(n, last);
        }
        forall k | IsArgName(k) && PropertyNameOf(k) == last ensures k == ArgName(last) {
          PropertyNameRoundTrip(k);
        }
      } else {
        forall k | IsArgName(k) ensures PropertyNameOf(k) != last {
          PropertyNameRoundTrip(k);
        }
      }
    }
  }

  /** Every enumeration order of the names gives the same map: args + Translate(p). */
  lemma ApplyAllTranslate(args: map<string, string>, p: Properties, names: seq<string>)
    requires forall n :: n in names <==> n in PropertyNames(p)
    ensures ApplyAll(args, p, names) == args + Translate(p)
  {
    var r, t := ApplyAll(args, p, names), Translate(p);
    ApplyAllSpec(args, p, names);
    TranslationSpec(p, PropertyNames(p));
    forall k | k in r ensures k in args + t && r[k] == (args + t)[k] {
      if IsArgName(k) && PropertyNameOf(k) in names {
        PropertyNameRoundTrip(k);
      }
    }
    assert r.Keys == (args + t).Keys;
  }

  lemma ApplyAllSnoc(args: map<string, string>, p: Properties, names: seq<string>, name: string)
    requires forall i :: 0 <= i < |names| ==> names[i] in PropertyNames(p)
    requires name in PropertyNames(p)
    ensures ApplyAll(args, p, names + [name]) == Put(ApplyAll(args, p, names), p, name)
  {
    assert (names + [name])[..|names|] == names;
  }

  /**
   * applyProperties: every name of `properties` starting with OUR_PREFIX puts
   * ("-" + rest of the name, its value) into the map; `order` is the
   * enumeration order of the names.
   */
  method ApplyProperties(argsBuilder: map<string, string>, properties: Properties)
    returns (r: map<string, string>, ghost order: seq<string>)
    ensures forall n :: n in order <==> n in PropertyNames(properties)
    ensures r == ApplyAll(argsBuilder, properties, order)
    ensures r == argsBuilder + Translate(properties)
  {
    r := argsBuilder;
    order := [];
    var pending := PropertyNames(properties);
    while pending != {}
      invariant pending <= PropertyNames(properties)
      invariant forall i :: 0 <= i < |order| ==> order[i] in PropertyNames(properties)
      invariant forall n :: n in PropertyNames(properties) ==> n in pending || n in order
      invariant r == ApplyAll(argsBuilder, properties, order)
      decreases |pending|
    {
      var name :| name in pending;
      if StartsWith(name, OurPrefix) {
        var value := GetProperty(properties, name);
        var argName := "-" + name[|OurPrefix|..];
        r := r[argName := value];
      }
      ApplyAllSnoc(argsBuilder, properties, order, name);
      order := order + [name];
      pending := pending - {name};
    }
    ApplyAllTranslate(argsBuilder, properties, order);
  }

  // ------------------------------------------------------- makeArgsBuilder

  /** What became of the bundled exhibitor.properties resource. */
  datatype PropertiesResource =
    | Missing                                  // getResource threw IllegalArgumentException
    | Unreadable                               // openStream or load threw IOException, or load threw IllegalArgumentException
    | Loaded(contents: map<string, string>)    // load parsed these entries

  /** What the first applyProperties of makeArgsBuilder puts into the empty map. */
  function FileArgs(resource: PropertiesResource, system: map<string, string>): map<string, string>
  {
    match resource
    case Loaded(contents) => Translate(Properties(contents, system))
    case _ => map[]
  }

  /** The map makeArgsBuilder returns. */
  function MergedArgs(resource: PropertiesResource, system: map<string, string>): map<string, string>
  {
    FileArgs(resource, system) + Translate(SystemProperties(system))
  }

  /**
   * makeArgsBuilder: the resource (over the system properties as defaults),
   * then the system properties alone.
   */
  method MakeArgsBuilder(resource: PropertiesResource, system: map<string, string>)
    returns (argsBuilder: map<string, string>)
    ensures argsBuilder == MergedArgs(resource, system)
  {
    argsBuilder := map[];
    match resource {
      case Loaded(contents) =>
        ghost var fileOrder;
        argsBuilder, fileOrder := ApplyProperties(argsBuilder, Properties(contents, system));
        assert argsBuilder == FileArgs(resource, system);
      case Missing =>
      case Unreadable =>
    }
    ghost var systemOrder;
    argsBuilder, systemOrder := ApplyProperties(argsBuilder, SystemProperties(system));
  }

  /**
   * Precedence: a prefixed name's argument exists iff the system or the loaded
   * file has the name, and holds the system's value whenever the system has it.
   */
  lemma ArgsPrecedence(resource: PropertiesResource, system: map<string, string>, name: string)
    requires IsOurs(name)
    ensures ArgName(name) in MergedArgs(resource, system) <==>
      name in system || (resource.Loaded? && name in resource.contents)
    ensures name in system ==> MergedArgs(resource, system)[ArgName(name)] == system[name]
    ensures name !in system && resource.Loaded? && name in resource.contents ==>
      MergedArgs(resource, system)[ArgName(name)] == resource.contents[name]
  {
    var sys := SystemProperties(system);
    TranslationSpec(sys, PropertyNames(sys));
    ArgNameRoundTrip(name);
    if resource.Loaded? {
      var file := Properties(resource.contents, system);
      TranslationSpec(file, PropertyNames(file));
    }
  }

  /** Only argument names of prefixed names from either source appear. */
  lemma MergedKeys(resource: PropertiesResource, system: map<string, string>, k: string)
    ensures k in MergedArgs(resource, system) <==>
      IsArgName(k) && (PropertyNameOf(k) in system ||
                       (resource.Loaded? && PropertyNameOf(k) in resource.contents))
  {
    var sys := SystemProperties(system);
    TranslationSpec(sys, PropertyNames(sys));
    if resource.Loaded? {
      var file := Properties(resource.contents, system);
      TranslationSpec(file, PropertyNames(file));
    }
  }

  /** A missing or unreadable resource contributes nothing. */
  lemma NoResourceSystemOnly(resource: PropertiesResource, system: map<string, string>)
    requires !resource.Loaded?
    ensures MergedArgs(resource, system) == Translate(SystemProperties(system))
    ensures forall k :: k in MergedArgs(resource, system) <==> IsArgName(k) && PropertyNameOf(k) in system
  {
    var sys := SystemProperties(system);
    TranslationSpec(sys, PropertyNames(sys));
  }

  /**
   * The listener looks the remote authorization up under "--" + option, which
   * is present exactly when a property named "exhibitor--" + option is, with
   * the system's value winning over the file's.
   */
  lemma RemoteAuthLookup(resource: PropertiesResource, system: map<string, string>, option: string)
    ensures var name := OurPrefix + "-" + option;
      ("--" + option in MergedArgs(resource, system) <==>
         name in system || (resource.Loaded? && name in resource.contents))
      && (name in system ==> MergedArgs(resource, system)["--" + option] == system[name])
      && (name !in system && resource.Loaded? && name in resource.contents ==>
            MergedArgs(resource, system)["--" + option] == resource.contents[name])
  {
    var name := OurPrefix + "-" + option;
    assert name[..|OurPrefix|] == OurPrefix;
    assert name[|OurPrefix|..] == "-" + option;
    assert ArgName(name) == "--" + option;
    ArgsPrecedence(resource, system, name);
  }

  /** The bundled file's value loses to the system's value for the same name. */
  lemma OverrideExample()
    ensures MergedArgs(Loaded(map["exhibitor-x" := "1"]), map["exhibitor-x" := "2"]) == map["-x" := "2"]
  {
    var resource, system := Loaded(map["exhibitor-x" := "1"]), map["exhibitor-x" := "2"];
    var m := MergedArgs(resource, system);
    ArgsPrecedence(resource, system, "exhibitor-x");
    assert ArgName("exhibitor-x") == "-x";
    forall k | k in m ensures k == "-x" {
      MergedKeys(resource, system, k);
      PropertyNameRoundTrip(k);
    }
  }

  // ------------------------------------------------------------ toArgsArray

  /** The map an alternating key/value argument array describes. */
  function PairsOf(args: seq<string>): map<string, string>
  {
    if |args| < 2 then map[]
    else PairsOf(args[..|args| - 2])[args[|args| - 2] := args[|args| - 1]]
  }

  /** The part of `m` whose keys are in `keys`. */
  function Restrict(m: map<string, string>, keys: set<string>): map<string, string>
  {
    map k | k in m && k in keys :: m[k]
  }

  /** The alternating key/value list for the keys of `m` taken in `order`. */
  function Flatten(m: map<string, string>, order: seq<string>): (args: seq<string>)
    requires forall i :: 0 <= i < |order| ==> order[i] in m
    ensures |args| == 2 * |order|
  {
    if order == [] then []
    else Flatten(m, order[..|order| - 1]) + [order[|order| - 1], m[order[|order| - 1]]]
  }

  /** Position 2i of the list holds the i-th key and position 2i+1 its value. */
  lemma {:induction false} FlattenAt(m: map<string, string>, order: seq<string>, i: nat)
    requires forall j :: 0 <= j < |order| ==> order[j] in m
    requires i < |order|
    ensures Flatten(m, order)[2 * i] == order[i]
    ensures Flatten(m, order)[2 * i + 1] == m[order[i]]
  {
    if i < |order| - 1 {
      FlattenAt(m, order[..|order| - 1], i);
    }
  }

  /** Reading the list back as pairs gives the map it was made from. */
  lemma {:induction false} FlattenPairs(m: map<string, string>, order: seq<string>)
    requires forall j :: 0 <= j < |order| ==> order[j] in m
    ensures PairsOf(Flatten(m, order)) == Restrict(m, set k | k in order)
  {
    if order != [] {
      var front := order[..|order| - 1];
      var last := order[|order| - 1];
      FlattenPairs(m, front);
      var args := Flatten(m, order);
      assert args == Flatten(m, front) + [last, m[last]];
      assert args[..|args| - 2] == Flatten(m, front);
      assert PairsOf(args) == Restrict(m, set k | k in front)[last := m[last]];
      assert (set k | k in order) == (set k | k in front) + {last};
      RestrictInsert(m, (set k | k in front), last);
    }
  }

  lemma RestrictInsert(m: map<string, string>, keys: set<string>, k: string)
    requires k in m
    ensures Restrict(m, keys + {k}) == Restrict(m, keys)[k := m[k]]
  {
  }

  /** A list of every key once has as many elements as the set. */
  lemma {:induction false} OrderingSize(order: seq<string>, keys: set<string>)
    requires IsOrdering(order, keys)
    ensures |order| == |keys|
  {
    if order != [] {
      var last := order[|order| - 1];
      var front := order[..|order| - 1];
      assert IsOrdering(front, keys - {last});
      OrderingSize(front, keys - {last});
    }
  }

  /** Flattening along an ordering of every key gives two elements per entry and reads back as the map. */
  lemma FlattenOrdering(m: map<string, string>, order: seq<string>)
    requires IsOrdering(order, m.Keys)
    ensures |Flatten(m, order)| == 2 * |m|
    ensures PairsOf(Flatten(m, order)) == m
  {
    OrderingSize(order, m.Keys);
    FlattenPairs(m, order);
    assert Restrict(m, set k | k in order) == m;
  }

  /**
   * toArgsArray: key, value, key, value, ... for every entry, in the map's
   * iteration order `order`.
   */
  method ToArgsArray(argsBuilder: map<string, string>) returns (args: seq<string>, ghost order: seq<string>)
    ensures IsOrdering(order, argsBuilder.Keys)
    ensures args == Flatten(argsBuilder, order)
    ensures |args| == 2 * |argsBuilder|
    ensures PairsOf(args) == argsBuilder
  {
    args := [];
    order := [];
    var pending := argsBuilder.Keys;
    while pending != {}
      invariant pending <= argsBuilder.Keys
      invariant forall i :: 0 <= i < |order| ==> order[i] in argsBuilder
      invariant IsOrdering(order, argsBuilder.Keys - pending)
      invariant args == Flatten(argsBuilder, order)
      decreases |pending|
    {
      var key :| key in pending;
      args := args + [key, argsBuilder[key]];
      order := order + [key];
      pending := pending - {key};
    }
    FlattenOrdering(argsBuilder, order);
  }
}
