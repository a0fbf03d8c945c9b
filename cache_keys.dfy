/** The cache-key builder: `GenerateCacheKey`, `GetMethodArguments` and
    `FormatArgumentValue`. A key is the method name, the policy key and one
    fragment `[name,type,text]` per argument, joined by colons. */
module CacheKeys {
  import opened Outcomes

  /** What `GetType()` prints for a string. */
  const StringTypeName: string := "System.String"

  /** An argument value as the key builder classifies it. The type name of a
      primitive or other object and the text of a primitive are what the
      runtime prints for them; the model takes them as given. */
  datatype ArgValue<V> =
    | NullArg
    | Str(text: string)
    | Primitive(typeName: string, text: string)
    | Object(typeName: string, obj: V)

  /** One argument of the invocation with the name of its parameter. */
  datatype Argument<V> = Argument(name: string, value: ArgValue<V>)

  /** What `GetType()` prints for an argument that is not null. */
  function TypeName<V>(argValue: ArgValue<V>): string
    requires !argValue.NullArg?
  {
    if argValue.Str? then StringTypeName else argValue.typeName
  }

  /** `FormatArgumentValue`: `[parameterName,typeName,text]`, where the text
      of a string or a primitive is its own and that of any other object is
      the serializer's; a null argument throws on `GetType()`. */
  function FormatArgumentValue<V>(argValue: ArgValue<V>, parameterName: string, serialize: V -> string)
    : (r: Result<string>)
    ensures r.Throw? <==> argValue.NullArg?
    ensures r.Throw? ==> r.exception == NullReferenceException
    ensures r.Ok? ==> |r.value| >= |parameterName| + 4 && r.value[0] == '[' && r.value[|r.value| - 1] == ']'
    ensures r.Ok? ==> r.value[1..|parameterName| + 1] == parameterName
    ensures r.Ok? && (argValue.Str? || argValue.Primitive?) ==>
      |r.value| > |argValue.text| && r.value[|r.value| - |argValue.text| - 1..] == argValue.text + "]"
    ensures r.Ok? && argValue.Object? ==>
      |r.value| > |serialize(argValue.obj)| &&
      r.value[|r.value| - |serialize(argValue.obj)| - 1..] == serialize(argValue.obj) + "]"
  {
    match argValue
    case NullArg => Throw(NullReferenceException)
    case Str(s) => Ok("[" + parameterName + "," + StringTypeName + "," + s + "]")
    case Primitive(t, text) => Ok("[" + parameterName + "," + t + "," + text + "]")
    case Object(t, o) => Ok("[" + parameterName + "," + t + "," + serialize(o) + "]")
  }

  /** The text a fragment ends with: the argument's own for a string or a
      primitive, the serializer's for any other object. */
  function ArgumentText<V>(argValue: ArgValue<V>, serialize: V -> string): string
    requires !argValue.NullArg?
  {
    if argValue.Object? then serialize(argValue.obj) else argValue.text
  }

  /** Between the parameter name and the text, a fragment carries the
      argument's type name, set off by commas, and nothing else: its length
      is that of the bracket, name, commas, type name and text. Together
      with the contract of `FormatArgumentValue` this fixes the fragment. */
  lemma FragmentNamesType<V>(argValue: ArgValue<V>, parameterName: string, serialize: V -> string)
    requires !argValue.NullArg?
    ensures
      var r := FormatArgumentValue(argValue, parameterName, serialize).value;
      var n := |parameterName| + |TypeName(argValue)| + 3;
      && |r| == n + |ArgumentText(argValue, serialize)| + 1
      && |r| > n && r[|parameterName| + 1..n] == "," + TypeName(argValue) + ","
  {
    var r := FormatArgumentValue(argValue, parameterName, serialize).value;
    var head := "[" + parameterName;
    var text := ArgumentText(argValue, serialize);
    assert r == head + ("," + TypeName(argValue) + ",") + (text + "]");
  }

  /** The fragment of an argument that is not null. */
  function Fragment<V>(a: Argument<V>, serialize: V -> string): string
    requires !a.value.NullArg?
  {
    FormatArgumentValue(a.value, a.name, serialize).value
  }

  /** `ToDictionary` over the arguments in parameter order, `seen` being the
      parameter names already added: each argument is formatted, then added
      under its name, which throws if the name is already present. The
      dictionary is the sequence of its entries in insertion order, the order
      in which its `Values` are enumerated. */
  function ToDictionary<V>(args: seq<Argument<V>>, serialize: V -> string, seen: set<string>)
    : Result<seq<(string, string)>>
    decreases |args|
  {
    if args == [] then Ok([])
    else
      match FormatArgumentValue(args[0].value, args[0].name, serialize)
      case Throw(e) => Throw(e)
      case Ok(fragment) =>
        if args[0].name in seen then Throw(ArgumentException(args[0].name))
        else
          match ToDictionary(args[1..], serialize, seen + {args[0].name})
          case Throw(e) => Throw(e)
          case Ok(rest) => Ok([(args[0].name, fragment)] + rest)
  }

  /** `GetMethodArguments`: parameter name to fragment, for every argument. */
  function GetMethodArguments<V>(args: seq<Argument<V>>, serialize: V -> string)
    : Result<seq<(string, string)>>
  {
    ToDictionary(args, serialize, {})
  }

  /** `string.Join`. */
  function Join(separator: string, parts: seq<string>): string
  {
    if parts == [] then ""
    else if |parts| == 1 then parts[0]
    else parts[0] + separator + Join(separator, parts[1..])
  }

  /** The dictionary's `Values`, in enumeration order. */
  function Values(entries: seq<(string, string)>): seq<string>
  {
    seq(|entries|, i requires 0 <= i < |entries| => entries[i].1)
  }

  /** `GenerateCacheKey`: `methodName:policyKey:` followed by the fragments
      joined by colons. */
  function GenerateCacheKey<V>(methodName: string, policyKey: string, args: seq<Argument<V>>,
    serialize: V -> string): Result<string>
  {
    var prefix := methodName + ":" + policyKey;
    match GetMethodArguments(args, serialize)
    case Throw(e) => Throw(e)
    case Ok(entries) => Ok(prefix + ":" + Join(":", Values(entries)))
  }

  ghost predicate NoNullArgument<V>(args: seq<Argument<V>>)
  {
    forall i :: 0 <= i < |args| ==> !args[i].value.NullArg?
  }

  ghost predicate NamesDistinct<V>(args: seq<Argument<V>>)
  {
    forall i, j :: 0 <= i < j < |args| ==> args[i].name != args[j].name
  }

  /** The fragments of the arguments, one per argument, in parameter order. */
  function Fragments<V>(args: seq<Argument<V>>, serialize: V -> string): (r: seq<string>)
    requires forall i :: 0 <= i < |args| ==> !args[i].value.NullArg?
  {
    seq(|args|, i requires 0 <= i < |args| => Fragment(args[i], serialize))
  }

  /** Building the dictionary succeeds exactly when no argument is null and
      no name repeats (nor was seen before); it then holds one entry per
      argument, in parameter order. */
  lemma {:induction false} ToDictionaryCharacterized<V>(args: seq<Argument<V>>, serialize: V -> string,
    seen: set<string>)
    ensures ToDictionary(args, serialize, seen).Ok? <==>
      NoNullArgument(args) && NamesDistinct(args) && forall i :: 0 <= i < |args| ==> args[i].name !in seen
    ensures ToDictionary(args, serialize, seen).Ok? ==>
      var entries := ToDictionary(args, serialize, seen).value;
      |entries| == |args| &&
      forall i :: 0 <= i < |args| ==> entries[i] == (args[i].name, Fragment(args[i], serialize))
    decreases |args|
  {
    if args != [] {
      var tail := args[1..];
      ToDictionaryCharacterized(tail, serialize, seen + {args[0].name});
      if NoNullArgument(args) && NamesDistinct(args) && forall i :: 0 <= i < |args| ==> args[i].name !in seen {
        assert NoNullArgument(tail) && NamesDistinct(tail);
        assert forall i :: 0 <= i < |tail| ==> tail[i].name !in seen + {args[0].name} by {
          forall i | 0 <= i < |tail| ensures tail[i].name !in seen + {args[0].name} {
            assert tail[i] == args[i + 1];
          }
        }
      }
      if ToDictionary(args, serialize, seen).Ok? {
        forall i, j | 0 <= i < j < |args| ensures args[i].name != args[j].name {
          if i > 0 { assert tail[i - 1] == args[i] && tail[j - 1] == args[j]; }
          else { assert tail[j - 1] == args[j]; }
        }
        forall i | 0 <= i < |args| ensures !args[i].value.NullArg? && args[i].name !in seen {
          if i > 0 { assert tail[i - 1] == args[i]; }
        }
        var fragment := FormatArgumentValue(args[0].value, args[0].name, serialize).value;
        var rest := ToDictionary(tail, serialize, seen + {args[0].name}).value;
        var entries := ToDictionary(args, serialize, seen).value;
        assert entries == [(args[0].name, fragment)] + rest;
        forall i | 0 <= i < |args| ensures entries[i] == (args[i].name, Fragment(args[i], serialize)) {
          if i > 0 { assert entries[i] == rest[i - 1] && tail[i - 1] == args[i]; }
        }
      }
    }
  }

  /** Key building succeeds exactly when no argument is null and the
      parameter names are distinct; the key is then the method name, the
      policy key and one fragment per argument in parameter order, all joined
      by colons. */
  lemma GenerateCacheKeyCharacterized<V>(methodName: string, policyKey: string, args: seq<Argument<V>>,
    serialize: V -> string)
    ensures GenerateCacheKey(methodName, policyKey, args, serialize).Ok? <==>
      NoNullArgument(args) && NamesDistinct(args)
    ensures GenerateCacheKey(methodName, policyKey, args, serialize).Ok? ==>
      GenerateCacheKey(methodName, policyKey, args, serialize).value ==
        methodName + ":" + policyKey + ":" + Join(":", Fragments(args, serialize))
  {
    ToDictionaryCharacterized(args, serialize, {});
    var d := GetMethodArguments(args, serialize);
    if d.Ok? {
      assert Values(d.value) == Fragments(args, serialize);
    }
  }

  /** With no arguments the key ends in the separator. */
  lemma KeyWithoutArguments<V>(methodName: string, policyKey: string, serialize: V -> string)
    ensures GenerateCacheKey(methodName, policyKey, [], serialize) == Ok(methodName + ":" + policyKey + ":")
  {
    var prefix := methodName + ":" + policyKey + ":";
    assert Values([]) == [];
    assert prefix + "" == prefix;
  }

  /** With no name repeated (nor seen before), a null argument makes
      building the dictionary throw the null-reference error: no duplicate
      name can be met first. */
  lemma {:induction false} ToDictionaryNullIsNullReference<V>(args: seq<Argument<V>>, serialize: V -> string,
    seen: set<string>, i: nat)
    requires i < |args| && args[i].value.NullArg?
    requires NamesDistinct(args) && forall j :: 0 <= j < |args| ==> args[j].name !in seen
    ensures ToDictionary(args, serialize, seen) == Throw(NullReferenceException)
    decreases |args|
  {
    if !args[0].value.NullArg? {
      var tail := args[1..];
      assert tail[i - 1] == args[i];
      assert NamesDistinct(tail) by {
        forall j, k | 0 <= j < k < |tail| ensures tail[j].name != tail[k].name {
          assert tail[j] == args[j + 1] && tail[k] == args[k + 1];
        }
      }
      forall j | 0 <= j < |tail| ensures tail[j].name !in seen + {args[0].name} {
        assert tail[j] == args[j + 1];
      }
      ToDictionaryNullIsNullReference(tail, serialize, seen + {args[0].name}, i - 1);
    }
  }

  /** A null argument anywhere makes key building throw; with distinct
      parameter names, as a compiled method has, the error is the
      null-reference one. */
  lemma NullArgumentFailsKey<V>(methodName: string, policyKey: string, args: seq<Argument<V>>,
    serialize: V -> string, i: nat)
    requires i < |args| && args[i].value.NullArg?
    ensures GenerateCacheKey(methodName, policyKey, args, serialize).Throw?
    ensures NamesDistinct(args) ==>
      GenerateCacheKey(methodName, policyKey, args, serialize) == Throw(NullReferenceException)
  {
    GenerateCacheKeyCharacterized(methodName, policyKey, args, serialize);
    if NamesDistinct(args) {
      ToDictionaryNullIsNullReference(args, serialize, {}, i);
    }
  }

  /** Only arguments that are neither strings nor primitives go through the
      serializer: two serializers that agree on those give the same key. */
  lemma {:induction false} ToDictionarySerializerAgnostic<V>(args: seq<Argument<V>>,
    s1: V -> string, s2: V -> string, seen: set<string>)
    requires forall i :: 0 <= i < |args| && args[i].value.Object? ==> s1(args[i].value.obj) == s2(args[i].value.obj)
    ensures ToDictionary(args, s1, seen) == ToDictionary(args, s2, seen)
    decreases |args|
  {
    if args != [] {
      var tail := args[1..];
      assert forall i :: 0 <= i < |tail| ==> tail[i] == args[i + 1];
      ToDictionarySerializerAgnostic(tail, s1, s2, seen + {args[0].name});
      if args[0].value.Object? {
        assert s1(args[0].value.obj) == s2(args[0].value.obj);
      }
    }
  }

  lemma KeySerializerAgnostic<V>(methodName: string, policyKey: string, args: seq<Argument<V>>,
    s1: V -> string, s2: V -> string)
    requires forall i :: 0 <= i < |args| && args[i].value.Object? ==> s1(args[i].value.obj) == s2(args[i].value.obj)
    ensures GenerateCacheKey(methodName, policyKey, args, s1) == GenerateCacheKey(methodName, policyKey, args, s2)
  {
    ToDictionarySerializerAgnostic(args, s1, s2, {});
  }

  /** Two calls of a one-parameter operation whose primitive arguments of the
      same type print differently get different keys. */
  lemma SingleArgumentKeysDiffer<V>(methodName: string, policyKey: string, name: string,
    typeName: string, text1: string, text2: string, serialize: V -> string)
    requires text1 != text2
    ensures GenerateCacheKey(methodName, policyKey, [Argument(name, Primitive(typeName, text1))], serialize)
         != GenerateCacheKey(methodName, policyKey, [Argument(name, Primitive(typeName, text2))], serialize)
  {
    var a1, a2 := Argument(name, Primitive(typeName, text1)), Argument(name, Primitive(typeName, text2));
    KeyOfOneArgument(methodName, policyKey, a1, serialize);
    KeyOfOneArgument(methodName, policyKey, a2, serialize);
    var head := methodName + ":" + policyKey + ":" + ("[" + name + "," + typeName + ",");
    var k1, k2 := head + (text1 + "]"), head + (text2 + "]");
    assert methodName + ":" + policyKey + ":" + Fragment(a1, serialize) == k1;
    assert methodName + ":" + policyKey + ":" + Fragment(a2, serialize) == k2;
    assert k1[|head|..|k1| - 1] == text1;
    assert k2[|head|..|k2| - 1] == text2;
  }

  /** The same for a string argument: two calls of a one-parameter operation
      with different strings get different keys. */
  lemma SingleStringArgumentKeysDiffer<V>(methodName: string, policyKey: string, name: string,
    text1: string, text2: string, serialize: V -> string)
    requires text1 != text2
    ensures GenerateCacheKey(methodName, policyKey, [Argument(name, Str(text1))], serialize)
         != GenerateCacheKey(methodName, policyKey, [Argument(name, Str(text2))], serialize)
  {
    var s1, s2 := Argument(name, Str(text1)), Argument(name, Str(text2));
    var p1, p2 := Argument(name, Primitive(StringTypeName, text1)), Argument(name, Primitive(StringTypeName, text2));
    KeyOfOneArgument(methodName, policyKey, s1, serialize);
    KeyOfOneArgument(methodName, policyKey, s2, serialize);
    KeyOfOneArgument(methodName, policyKey, p1, serialize);
    KeyOfOneArgument(methodName, policyKey, p2, serialize);
    SingleArgumentKeysDiffer(methodName, policyKey, name, StringTypeName, text1, text2, serialize);
  }

  /** The key of a one-argument call: the prefix and the argument's fragment. */
  lemma KeyOfOneArgument<V>(methodName: string, policyKey: string, arg: Argument<V>, serialize: V -> string)
    requires !arg.value.NullArg?
    ensures GenerateCacheKey(methodName, policyKey, [arg], serialize) ==
      Ok(methodName + ":" + policyKey + ":" + Fragment(arg, serialize))
  {
    GenerateCacheKeyCharacterized(methodName, policyKey, [arg], serialize);
    assert Fragments([arg], serialize) == [Fragment(arg, serialize)];
  }

  /** The key of a two-argument call: the prefix and the two fragments,
      separated by a colon. */
  lemma KeyOfTwoArguments<V>(methodName: string, policyKey: string, arg1: Argument<V>, arg2: Argument<V>,
    serialize: V -> string)
    requires !arg1.value.NullArg? && !arg2.value.NullArg? && arg1.name != arg2.name
    ensures GenerateCacheKey(methodName, policyKey, [arg1, arg2], serialize) ==
      Ok(methodName + ":" + policyKey + ":" + (Fragment(arg1, serialize) + ":" + Fragment(arg2, serialize)))
  {
    var f1, f2 := Fragment(arg1, serialize), Fragment(arg2, serialize);
    GenerateCacheKeyCharacterized(methodName, policyKey, [arg1, arg2], serialize);
    assert Fragments([arg1, arg2], serialize) == [f1, f2];
    assert Join(":", [f1, f2]) == f1 + ":" + Join(":", [f2]);
  }

  /** Keys are not injective: a string argument that holds a separator and
      a fragment's brackets builds the same key as two arguments. This
      collision needs two overloads with the same name and policy key;
      `SameArityKeysCollide` shows one within a single method. */
  lemma KeysCanCollide<V>(methodName: string, policyKey: string, a: string, b: string,
    x: string, y: string, serialize: V -> string)
    requires a != b
    ensures
      var one := [Argument(a, Str(x + "]:[" + b + "," + StringTypeName + "," + y))];
      var two := [Argument(a, Str(x)), Argument(b, Str(y))];
      one != two && GenerateCacheKey(methodName, policyKey, one, serialize) == GenerateCacheKey(methodName, policyKey, two, serialize)
  {
    var text := x + "]:[" + b + "," + StringTypeName + "," + y;
    var fa := "[" + a + "," + StringTypeName + "," + x + "]";
    var fb := "[" + b + "," + StringTypeName + "," + y + "]";
    assert "[" + a + "," + StringTypeName + "," + text + "]" == fa + ":" + fb;
    KeyOfOneArgument(methodName, policyKey, Argument(a, Str(text)), serialize);
    KeyOfTwoArguments(methodName, policyKey, Argument(a, Str(x)), Argument(b, Str(y)), serialize);
  }

  /** The start of a string argument's fragment, up to its text. */
  function StringFragmentHead(name: string): string
  {
    "[" + name + "," + StringTypeName + ","
  }

  /** A string argument's fragment is its head, its text and a bracket. */
  lemma StringFragment<V>(name: string, text: string, serialize: V -> string)
    ensures Fragment(Argument(name, Str(text)), serialize) == StringFragmentHead(name) + text + "]"
  {
  }

  /** Two two-argument calls whose fragments join to the same text build
      the same key. */
  lemma JoinedFragmentsDecideKey<V>(methodName: string, policyKey: string,
    a1: Argument<V>, b1: Argument<V>, a2: Argument<V>, b2: Argument<V>, serialize: V -> string)
    requires !a1.value.NullArg? && !b1.value.NullArg? && a1.name != b1.name
    requires !a2.value.NullArg? && !b2.value.NullArg? && a2.name != b2.name
    requires Fragment(a1, serialize) + ":" + Fragment(b1, serialize) == Fragment(a2, serialize) + ":" + Fragment(b2, serialize)
    ensures GenerateCacheKey(methodName, policyKey, [a1, b1], serialize) == GenerateCacheKey(methodName, policyKey, [a2, b2], serialize)
  {
    KeyOfTwoArguments(methodName, policyKey, a1, b1, serialize);
    KeyOfTwoArguments(methodName, policyKey, a2, b2, serialize);
  }

  /** The concatenation step behind `SameArityKeysCollide`. */
  lemma BoundaryMoves(ha: string, hb: string, x: string, y: string, z: string)
    ensures ha + (x + ("]:" + hb) + y) + "]" + ":" + (hb + z + "]") == ha + x + "]" + ":" + (hb + (y + ("]:" + hb) + z) + "]")
  {
    assert "]:" == "]" + ":";
  }

  /** Keys collide within one method `M(string a, string b)`: text shaped
      like the boundary between `a`'s and `b`'s fragments builds the same
      key whether it ends `a` or starts `b`. */
  lemma SameArityKeysCollide<V>(methodName: string, policyKey: string, a: string, b: string,
    x: string, y: string, z: string, serialize: V -> string)
    requires a != b
    ensures
      var glue := "]:[" + b + "," + StringTypeName + ",";
      var one := [Argument(a, Str(x + glue + y)), Argument(b, Str(z))];
      var two := [Argument(a, Str(x)), Argument(b, Str(y + glue + z))];
      one != two && GenerateCacheKey(methodName, policyKey, one, serialize) == GenerateCacheKey(methodName, policyKey, two, serialize)
  {
    var glue := "]:[" + b + "," + StringTypeName + ",";
    var ha, hb := StringFragmentHead(a), StringFragmentHead(b);
    assert glue == "]:" + hb;
    var a1, b1 := Argument(a, Str(x + glue + y)), Argument(b, Str(z));
    var a2, b2 := Argument(a, Str(x)), Argument(b, Str(y + glue + z));
    StringFragment(a, x + glue + y, serialize);
    StringFragment(b, z, serialize);
    StringFragment(a, x, serialize);
    StringFragment(b, y + glue + z, serialize);
    assert |x + glue + y| != |x|;
    BoundaryMoves(ha, hb, x, y, z);
    JoinedFragmentsDecideKey(methodName, policyKey, a1, b1, a2, b2, serialize);
  }
}
