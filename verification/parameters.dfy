/**
  GenericParametersWrapper<TKey, TDbParameter>: a keyed, insertion-ordered
  collection of command parameters, plus the setter and getter machinery the
  Oracle and DB2 extension classes share.

  The wrapper's collection is a KeyedList, which is not part of this model;
  it is taken to be a list of key/parameter pairs with unique keys, where
  storing under a new key appends, storing under a present key replaces in
  place, and the positional indexer reads the pair at that position.
 */
module Parameters {
  import opened Exceptions
  import opened Text

  /** The key type the wrapper is instantiated with. */
  datatype KeyType = IntKeys | StringKeys | OtherKeys

  /** A key: an `int` or a `string`. */
  datatype Key = IntKey(n: int) | StrKey(s: string)

  /** `key.ToString()`, as string interpolation and concatenation write it. */
  function KeyText(k: Key): string {
    match k
    case IntKey(n) => IntText(n)
    case StrKey(s) => s
  }

  /** System.TypeCode. */
  datatype TypeCode =
    | Empty | Object | DBNull | Boolean | Char | SByte | Byte | Int16 | UInt16
    | Int32 | UInt32 | Int64 | UInt64 | Single | Double | Decimal | DateTime | String

  /** System.Data.ParameterDirection. */
  datatype Direction = Input | Output | InputOutput | ReturnValue

  /** A parameter value: `null`, `DBNull.Value`, a .NET value set by the
      program, a value of the driver's own type as a command execution
      leaves it in an output parameter, or an array of values.  Scalars are
      known only by their text. */
  datatype Value = Null | DbNull | Clr(text: string) | Provider(text: string) | Items(items: seq<Value>)

  /** A driver parameter, with the driver's type enumeration `T`. */
  datatype Param<T> = Param(name: string, dbType: T, direction: Direction, value: Value)

  datatype Entry<T> = Entry(key: Key, param: Param<T>)

  datatype Wrapper<T> = Wrapper(keyType: KeyType, entries: seq<Entry<T>>, arrayBindCount: int, disposed: bool)

  /** The name the wrapper's indexer gives every parameter it stores. */
  function BoundName(k: Key): string {
    "par_" + KeyText(k)
  }

  predicate UniqueKeys<T>(es: seq<Entry<T>>) {
    forall i, j :: 0 <= i < j < |es| ==> es[i].key != es[j].key
  }

  /** What every wrapper keeps: one parameter per key, each named after
      its key. */
  predicate Valid<T>(w: Wrapper<T>) {
    && UniqueKeys(w.entries)
    && forall i :: 0 <= i < |w.entries| ==> w.entries[i].param.name == BoundName(w.entries[i].key)
  }

  // ---------------------------------------------------------------------------
  // The wrapper
  // ---------------------------------------------------------------------------

  /** The constructor: only `int` and `string` keys are accepted. */
  function New<T>(keyType: KeyType, arrayCount: int): (r: Result<Wrapper<T>>)
    ensures r.Failure? <==> keyType == OtherKeys
    ensures r.Failure? ==> r.error == ArgumentException
    ensures r.Success? ==> && Valid(r.value) && r.value.entries == [] && !r.value.disposed
                           && r.value.arrayBindCount == arrayCount && r.value.keyType == keyType
  {
    if keyType == OtherKeys then Failure(ArgumentException)
    else Success(Wrapper(keyType, [], arrayCount, false))
  }

  /** The position of key `k`, if present. */
  function Find<T>(es: seq<Entry<T>>, k: Key): (r: Option<nat>)
    ensures r.None? <==> forall i :: 0 <= i < |es| ==> es[i].key != k
    ensures r.Some? ==> r.value < |es| && es[r.value].key == k
    ensures r.Some? ==> forall j :: r.value < j < |es| ==> es[j].key != k
  {
    if |es| == 0 then None
    else if es[|es| - 1].key == k then Some(|es| - 1)
    else Find(es[..|es| - 1], k)
  }

  /** Find gives the last position holding the key. */
  lemma {:induction false} FindLast<T>(es: seq<Entry<T>>, k: Key, i: nat)
    requires i < |es| && es[i].key == k
    requires forall j :: i < j < |es| ==> es[j].key != k
    ensures Find(es, k) == Some(i)
  {
    if i < |es| - 1 {
      FindLast(es[..|es| - 1], k, i);
    }
  }

  /** `ContainsKey(key)`. */
  function ContainsKey<T>(w: Wrapper<T>, k: Key): (r: bool)
    ensures r <==> exists i :: 0 <= i < |w.entries| && w.entries[i].key == k
  {
    Find(w.entries, k).Some?
  }

  /** The indexer's getter: KeyNotFoundException for a missing key. */
  function Get<T>(w: Wrapper<T>, k: Key): (r: Result<Param<T>>)
    ensures r.Failure? <==> !ContainsKey(w, k)
    ensures r.Failure? ==> r.error == KeyNotFoundException
    ensures r.Success? ==> exists i :: 0 <= i < |w.entries| && w.entries[i] == Entry(k, r.value)
  {
    match Find(w.entries, k)
    case None => Failure(KeyNotFoundException)
    case Some(i) => Success(w.entries[i].param)
  }

  /** The indexer's setter: stores `p` under `k`, replacing a parameter
      already there, and renames it `par_<key>`. */
  function Store<T>(w: Wrapper<T>, k: Key, p: Param<T>): (r: Wrapper<T>)
    ensures Get(r, k) == Success(p.(name := BoundName(k)))
    ensures Valid(w) ==> Valid(r)
    ensures !ContainsKey(w, k) ==> r.entries == w.entries + [Entry(k, p.(name := BoundName(k)))]
    ensures ContainsKey(w, k) ==>
              && |r.entries| == |w.entries|
              && forall i :: 0 <= i < |w.entries| ==> r.entries[i].key == w.entries[i].key
    ensures r.keyType == w.keyType && r.arrayBindCount == w.arrayBindCount && r.disposed == w.disposed
  {
    var named := Entry(k, p.(name := BoundName(k)));
    match Find(w.entries, k)
    case None =>
      AppendKeepsValid(w, named);
      w.(entries := w.entries + [named])
    case Some(i) =>
      var r := w.(entries := w.entries[i := named]);
      FindLast(r.entries, k, i);
      ReplaceKeepsValid(w, i, named);
      r
  }

  /** Appending a well-named entry under a new key keeps a wrapper valid. */
  lemma AppendKeepsValid<T>(w: Wrapper<T>, e: Entry<T>)
    requires forall i :: 0 <= i < |w.entries| ==> w.entries[i].key != e.key
    ensures Valid(w) && e.param.name == BoundName(e.key) ==> Valid(w.(entries := w.entries + [e]))
  {
  }

  /** Replacing an entry by a well-named one under the same key keeps a
      wrapper valid. */
  lemma ReplaceKeepsValid<T>(w: Wrapper<T>, i: nat, e: Entry<T>)
    requires i < |w.entries| && w.entries[i].key == e.key
    ensures Valid(w) && e.param.name == BoundName(e.key) ==> Valid(w.(entries := w.entries[i := e]))
  {
  }

  /** `wrapper[key].Value = value` on a present key: only the value
      changes. */
  function SetValue<T>(w: Wrapper<T>, k: Key, v: Value): (r: Wrapper<T>)
    requires ContainsKey(w, k)
    ensures Get(r, k) == Success(Get(w, k).value.(value := v))
    ensures Valid(w) ==> Valid(r)
    ensures |r.entries| == |w.entries| && forall i :: 0 <= i < |w.entries| ==> r.entries[i].key == w.entries[i].key
    ensures r.keyType == w.keyType && r.arrayBindCount == w.arrayBindCount && r.disposed == w.disposed
  {
    var i := Find(w.entries, k).value;
    var e := w.entries[i];
    var r := w.(entries := w.entries[i := e.(param := e.param.(value := v))]);
    FindLast(r.entries, k, i);
    ReplaceKeepsValid(w, i, r.entries[i]);
    r
  }

  /** Storing under one key leaves every other key's parameter as it was. */
  lemma StoreLeavesOtherKeys<T>(w: Wrapper<T>, k: Key, p: Param<T>, other: Key)
    requires Valid(w) && other != k
    ensures Get(Store(w, k, p), other) == Get(w, other)
  {
    var r := Store(w, k, p);
    FindUnique(w.entries, other);
    FindUnique(r.entries, other);
  }

  /** Setting one key's value leaves every other key's parameter as it
      was. */
  lemma SetValueLeavesOtherKeys<T>(w: Wrapper<T>, k: Key, v: Value, other: Key)
    requires Valid(w) && ContainsKey(w, k) && other != k
    ensures Get(SetValue(w, k, v), other) == Get(w, other)
  {
    var r := SetValue(w, k, v);
    FindUnique(w.entries, other);
    FindUnique(r.entries, other);
  }

  /** With unique keys, the key's position is the only one holding it. */
  lemma FindUnique<T>(es: seq<Entry<T>>, k: Key)
    requires UniqueKeys(es)
    ensures forall i :: 0 <= i < |es| && es[i].key == k ==> Find(es, k) == Some(i)
  {
  }

  /** The parameters of a wrapper, in list order. */
  function Params<T>(es: seq<Entry<T>>): (r: seq<Param<T>>)
    ensures |r| == |es| && forall i :: 0 <= i < |es| ==> r[i] == es[i].param
  {
    seq(|es|, i requires 0 <= i < |es| => es[i].param)
  }

  /** `SetUpParameters(parameters)`: a disposed wrapper raises
      InvalidOperationException; otherwise every parameter is appended to
      the command's collection in list order.  Both branches of the source
      (positional for `int` keys, enumeration for `string` keys) walk the
      list from first to last. */
  method SetUpParameters<T>(w: Wrapper<T>, collection: seq<Param<T>>) returns (r: Result<seq<Param<T>>>)
    ensures r.Failure? <==> w.disposed
    ensures r.Failure? ==> r.error == InvalidOperationException
    ensures r.Success? ==> r.value == collection + Params(w.entries)
  {
    if w.disposed {
      return Failure(InvalidOperationException);
    }
    var added := collection;
    var index := 0;
    while index < |w.entries|
      invariant 0 <= index <= |w.entries|
      invariant |added| == |collection| + index
      invariant added[..|collection|] == collection
      invariant forall j :: 0 <= j < index ==> added[|collection| + j] == w.entries[j].param
    {
      added := added + [w.entries[index].param];
      index := index + 1;
    }
    return Success(added);
  }

  /** The bind order is the order in which keys were first stored, for
      `int` keys too: storing key 1 and then key 0 binds `par_1` first,
      although the class documentation promises key order. */
  lemma IntKeysBindInInsertionOrder<T>(w: Wrapper<T>, p: Param<T>, q: Param<T>)
    requires w.keyType == IntKeys && w.entries == []
    ensures var r := Store(Store(w, IntKey(1), p), IntKey(0), q);
      Params(r.entries)[0].name == "par_1" && Params(r.entries)[1].name == "par_0"
  {
    var r1 := Store(w, IntKey(1), p);
    assert !ContainsKey(r1, IntKey(0));
  }

  /** Distinct keys of one kind get distinct names. */
  lemma BoundNameInjective(a: Key, b: Key)
    requires a.IntKey? == b.IntKey?
    ensures BoundName(a) == BoundName(b) ==> a == b
  {
    if BoundName(a) == BoundName(b) {
      assert KeyText(a) == BoundName(a)[4..] && KeyText(b) == BoundName(b)[4..];
      if a.IntKey? {
        IntTextInjective(a.n, b.n);
      }
    }
  }

  /** The command never receives two parameters of one name: the keys of a
      wrapper are all of its TKey, so the names SetUpParameters binds are
      pairwise distinct. */
  lemma BoundNamesDistinct<T>(w: Wrapper<T>)
    requires Valid(w)
    requires forall i :: 0 <= i < |w.entries| ==> (w.entries[i].key.IntKey? <==> w.keyType == IntKeys)
    ensures forall i, j :: 0 <= i < j < |w.entries| ==> Params(w.entries)[i].name != Params(w.entries)[j].name
  {
    forall i, j | 0 <= i < j < |w.entries|
      ensures Params(w.entries)[i].name != Params(w.entries)[j].name
    {
      BoundNameInjective(w.entries[i].key, w.entries[j].key);
    }
  }

  /** The SetUpCommand of both vendor wrappers: a command of another driver
      raises SystemException; a positive ArrayBindCount is copied to the
      command, which otherwise keeps its own. */
  function SetUpCommand<T>(w: Wrapper<T>, sameDriver: bool, commandArrayBindCount: int): (r: Result<int>)
    ensures r.Failure? <==> !sameDriver
    ensures r.Failure? ==> r.error == SystemException
    ensures r.Success? ==> r.value == (if w.arrayBindCount > 0 then w.arrayBindCount else commandArrayBindCount)
  {
    if !sameDriver then Failure(SystemException)
    else if w.arrayBindCount > 0 then Success(w.arrayBindCount)
    else Success(commandArrayBindCount)
  }

  /** Setting up a command twice leaves it as setting it up once. */
  lemma SetUpCommandIdempotent<T>(w: Wrapper<T>, sameDriver: bool, commandArrayBindCount: int)
    ensures var once := SetUpCommand(w, sameDriver, commandArrayBindCount);
      once.Success? ==> SetUpCommand(w, sameDriver, once.value) == once
  {
  }

  /** One `[name = value]` line of `ToString()`; `show` is the value's own
      ToString and `nl` the line terminator. */
  function Line<T>(p: Param<T>, show: Value -> string, nl: string): (r: string)
    ensures "[" + p.name + " = " <= r
    ensures |r| == |p.name| + |show(p.value)| + 5 + |nl|
    ensures r[|r| - |nl| - 1..] == "]" + nl
  {
    "[" + p.name + " = " + show(p.value) + "]" + nl
  }

  /** `ToString()`: one line per parameter, in list order. */
  function Listing<T>(es: seq<Entry<T>>, show: Value -> string, nl: string): (r: string)
    ensures |es| == 0 <==> r == ""
  {
    if |es| == 0 then "" else Listing(es[..|es| - 1], show, nl) + Line(es[|es| - 1].param, show, nl)
  }

  /** Storing a new key adds its line at the end of the text and leaves the
      rest as it was. */
  lemma TextOfStore<T>(w: Wrapper<T>, k: Key, p: Param<T>, show: Value -> string, nl: string)
    requires !ContainsKey(w, k)
    ensures Listing(Store(w, k, p).entries, show, nl) ==
            Listing(w.entries, show, nl) + Line(p.(name := BoundName(k)), show, nl)
  {
    var r := Store(w, k, p);
    assert r.entries[..|r.entries| - 1] == w.entries;
  }

  /** Each parameter's line follows the lines of the parameters before
      it. */
  lemma {:induction false} ListingHasEveryLine<T>(es: seq<Entry<T>>, show: Value -> string, nl: string, i: nat)
    requires i < |es|
    ensures Listing(es[..i], show, nl) + Line(es[i].param, show, nl) <= Listing(es, show, nl)
  {
    var init := es[..|es| - 1];
    if i < |es| - 1 {
      ListingHasEveryLine(init, show, nl, i);
      assert init[..i] == es[..i];
    } else {
      assert init == es[..i];
    }
  }

  /** Dispose(): the parameters are released and the wrapper is marked
      disposed; a second call does nothing. */
  function Dispose<T>(w: Wrapper<T>): (r: Wrapper<T>)
    ensures r.disposed && (w.disposed ==> r == w)
    ensures !w.disposed ==> r.entries == []
    ensures Valid(w) ==> Valid(r)
  {
    if w.disposed then w else w.(entries := [], disposed := true)
  }

  // ---------------------------------------------------------------------------
  // Setters shared by the vendor extensions
  // ---------------------------------------------------------------------------

  /** The typed setters of the extension classes. */
  datatype Setter = SetShort | SetInt | SetLong | SetDouble | SetDecimal | SetBoolean | SetString | SetDateTime

  /** A setter's argument: one value (`null` for a nullable one), an array
      of values, or an array of nullable values; the arrays may be null. */
  datatype Arg = One(value: Option<Value>) | Many(values: Option<seq<Value>>) | ManyNullable(elems: Option<seq<Option<Value>>>)

  /** The overloads both extension classes declare: `SetString` has no
      nullable-array form. */
  predicate Declared(s: Setter, a: Arg) {
    !(s == SetString && a.ManyNullable?)
  }

  /** The TypeCode of the setter's own value type. */
  function SetterTypeCode(s: Setter): TypeCode {
    match s
    case SetShort => Int16
    case SetInt => Int32
    case SetLong => Int64
    case SetDouble => Double
    case SetDecimal => Decimal
    case SetBoolean => Boolean
    case SetString => String
    case SetDateTime => DateTime
  }

  /** The object the setters hand to the common setter: an array becomes
      one object; the elements of a nullable array that are null become
      DBNull, and a null nullable array raises NullReferenceException on
      its `Length`. */
  function ArgValue(a: Arg): (r: Result<Option<Value>>)
    ensures r.Failure? <==> a == ManyNullable(None)
    ensures r.Failure? ==> r.error == NullReferenceException
    ensures a.ManyNullable? && a.elems.Some? ==>
              r.Success? && r.value.Some? && r.value.value.Items? &&
              |r.value.value.items| == |a.elems.value| &&
              forall i :: 0 <= i < |a.elems.value| ==>
                r.value.value.items[i] == (if a.elems.value[i].None? then DbNull else a.elems.value[i].value)
  {
    match a
    case One(v) => Success(v)
    case Many(None) => Success(None)
    case Many(Some(vs)) => Success(Some(Items(vs)))
    case ManyNullable(None) => Failure(NullReferenceException)
    case ManyNullable(Some(vs)) =>
      Success(Some(Items(seq(|vs|, i requires 0 <= i < |vs| => if vs[i].None? then DbNull else vs[i].value))))
  }

  /** The value a setter stores: `null` becomes DBNull. */
  function Stored(v: Option<Value>): (r: Value)
    ensures r != Null || v == Some(Null)
    ensures v.Some? ==> r == v.value
  {
    if v.None? then DbNull else v.value
  }

  /** The common setter, `SetInValueInternal<TValue, TKey>(.., object
      value, pDir)` of both vendors: a present key gets only its value
      replaced; a new key gets a parameter of the driver type that
      `dbTypeOf` maps the TypeCode of TValue to, or ArgumentException when
      it maps none. */
  function SetIn<T>(w: Wrapper<T>, k: Key, tc: TypeCode, v: Option<Value>, dir: Direction,
                    dbTypeOf: TypeCode -> Option<T>): (r: Result<Wrapper<T>>)
    ensures r.Failure? <==> !ContainsKey(w, k) && dbTypeOf(tc).None?
    ensures r.Failure? ==> r.error == ArgumentException
    ensures ContainsKey(w, k) ==> r == Success(SetValue(w, k, Stored(v)))
    ensures r.Success? && !ContainsKey(w, k) ==>
              Get(r.value, k) == Success(Param(BoundName(k), dbTypeOf(tc).value, dir, Stored(v)))
    ensures r.Success? && Valid(w) ==> Valid(r.value)
  {
    if ContainsKey(w, k) then Success(SetValue(w, k, Stored(v)))
    else match dbTypeOf(tc)
      case None => Failure(ArgumentException)
      case Some(t) => Success(Store(w, k, Param("@par_" + KeyText(k), t, dir, Stored(v))))
  }

  /** `SetNull(key, typeCode)` of both vendors: the TypeCodes the vendor
      maps are set to DBNull through SetIn, except String, which is set to
      the empty string; any other TypeCode raises ArgumentException, even
      for a present key. */
  function SetNullWith<T>(w: Wrapper<T>, k: Key, tc: TypeCode, dbTypeOf: TypeCode -> Option<T>): (r: Result<Wrapper<T>>)
    ensures r.Failure? <==> dbTypeOf(tc).None?
    ensures r.Failure? ==> r.error == ArgumentException
    ensures r.Success? ==>
              && Get(r.value, k).Success?
              && Get(r.value, k).value.value == (if tc == String then Clr("") else DbNull)
    ensures r.Success? && Valid(w) ==> Valid(r.value)
  {
    if dbTypeOf(tc).None? then Failure(ArgumentException)
    else SetIn(w, k, tc, if tc == String then Some(Clr("")) else None, Input, dbTypeOf)
  }

  /** `SetInValueInternalWithOdbType`: as SetIn, with the driver type given
      explicitly (the Clob and Blob setters). */
  function SetInWithType<T>(w: Wrapper<T>, k: Key, v: Option<Value>, t: T, dir: Direction): (r: Wrapper<T>)
    ensures ContainsKey(w, k) ==> r == SetValue(w, k, Stored(v))
    ensures !ContainsKey(w, k) ==> Get(r, k) == Success(Param(BoundName(k), t, dir, Stored(v)))
    ensures Valid(w) ==> Valid(r)
  {
    if ContainsKey(w, k) then SetValue(w, k, Stored(v))
    else Store(w, k, Param("@par_" + KeyText(k), t, dir, Stored(v)))
  }

  /** `_setOutValueInternal` / the tail of DB2's SetOutValueInternal: an
      output parameter of type `t` with no value replaces whatever the key
      held. */
  function SetOut<T>(w: Wrapper<T>, k: Key, t: T): (r: Wrapper<T>)
    ensures Get(r, k) == Success(Param(BoundName(k), t, Output, Null))
    ensures Valid(w) ==> Valid(r)
  {
    Store(w, k, Param("@par_" + KeyText(k), t, Output, Null))
  }

  /** The casts of GetValue: `(short)(OracleDecimal)value` and the like
      accept only a value of the driver's type; null raises
      NullReferenceException, anything else InvalidCastException. */
  function Unbox(v: Value): (r: Result<Value>)
    ensures r.Success? <==> v.Provider?
    ensures r.Success? ==> r.value == Clr(v.text)
    ensures v == Null ==> r == Failure(NullReferenceException)
  {
    match v
    case Provider(t) => Success(Clr(t))
    case Null => Failure(NullReferenceException)
    case _ => Failure(InvalidCastException)
  }

  /** True if the key's text, written into a format string, makes
      `string.Format` raise FormatException: a string key holding a brace
      that is not doubled.  An `int` key never does (IntKeysFormat). */
  predicate KeyBreaksFormat(k: Key) {
    FormatNoArgs(KeyText(k)).Failure?
  }

  lemma IntKeysFormat(n: int)
    ensures !KeyBreaksFormat(IntKey(n))
  {
    IntTextNoBraces(n);
    FormatWithoutBraces(IntText(n));
  }

  /** The exception `throw new E(string.Format(message))` raises. */
  function Thrown(e: Exn, message: string): Exn {
    if FormatNoArgs(message).Failure? then FormatException else e
  }

  /** The message of GetValue's DataException for a missing key.  The
      rest of the text holds no brace, so the message fails to format
      exactly when the key's text does, and otherwise keeps the key as
      written. */
  function MissingKeyMessage(k: Key): (r: string)
    ensures FormatNoArgs(r).Failure? <==> KeyBreaksFormat(k)
    ensures NoBraces(KeyText(k)) ==> FormatNoArgs(r) == Success(r)
  {
    var prefix, key, missing := "Output parameter key ", KeyText(k), " does not exist";
    assert NoBraces(prefix) && NoBraces(missing);
    FormatAfterPlain(prefix, key + missing);
    FormatBeforePlain(key, missing);
    assert NoBraces(key) ==> NoBraces(prefix + (key + missing));
    if NoBraces(key) then FormatWithoutBraces(prefix + (key + missing)); prefix + (key + missing)
    else prefix + (key + missing)
  }

  /** The message of GetValue's ArgumentException for a parameter
      registered with the driver type named `typeName`; with a brace-free
      type name it too fails to format exactly when the key's text does. */
  function WrongTypeMessage(k: Key, typeName: string): (r: string)
    ensures NoBraces(typeName) ==> (FormatNoArgs(r).Failure? <==> KeyBreaksFormat(k))
    ensures NoBraces(typeName) && NoBraces(KeyText(k)) ==> FormatNoArgs(r) == Success(r)
  {
    var prefix, key, wrong := "Output parameter key ", KeyText(k), " was registered as " + typeName;
    assert NoBraces(prefix);
    FormatAfterPlain(prefix, key + wrong);
    if NoBraces(typeName) then
      FormatBeforePlain(key, wrong);
      if NoBraces(key) then FormatWithoutBraces(prefix + (key + wrong)); prefix + (key + wrong)
      else prefix + (key + wrong)
    else prefix + (key + wrong)
  }

  /** The exception GetValue reports as `e` for key `k`: FormatException
      when the key's text breaks the format of the message. */
  function ReportedAs(e: Exn, k: Key): Exn {
    if KeyBreaksFormat(k) then FormatException else e
  }

  /** `GetValue(key, type)` of both vendors, as written: a missing key
      raises DataException; the TypeCode DBNull gives null; a TypeCode the
      switch does not list (`cases`) raises ArgumentException; a listed one
      needs `accepts` to admit the parameter's driver type (otherwise
      ArgumentException) and then the cast of its value.  Both the
      DataException and the type-check ArgumentException are built with
      `string.Format` over a message holding the key, so a key that breaks
      the format raises FormatException instead.  `name` is
      `Enum.GetName` of the driver type. */
  function ReadOut<T(!new)>(w: Wrapper<T>, k: Key, tc: TypeCode, cases: set<TypeCode>,
                      accepts: (TypeCode, T) -> bool, name: T -> string): (r: Result<Value>)
    requires forall t :: NoBraces(name(t))
    ensures !ContainsKey(w, k) ==> r == Failure(ReportedAs(DataException, k))
    ensures ContainsKey(w, k) && tc == DBNull ==> r == Success(Null)
    ensures ContainsKey(w, k) && tc != DBNull && tc !in cases ==> r == Failure(ArgumentException)
    ensures ContainsKey(w, k) && tc != DBNull && tc in cases && !accepts(tc, Get(w, k).value.dbType) ==>
              r == Failure(ReportedAs(ArgumentException, k))
    ensures ContainsKey(w, k) && tc != DBNull && tc in cases && accepts(tc, Get(w, k).value.dbType) ==>
              r == Unbox(Get(w, k).value.value)
  {
    match Get(w, k)
    case Failure(_) =>
      Failure(Thrown(DataException, MissingKeyMessage(k)))
    case Success(p) =>
      if tc == DBNull then Success(Null)
      else if tc !in cases then Failure(ArgumentException)
      else if !accepts(tc, p.dbType) then
        Failure(Thrown(ArgumentException, WrongTypeMessage(k, name(p.dbType))))
      else Unbox(p.value)
  }

  /** `GetValue` with the messages passed as plain strings, not as format
      strings: the exception no longer depends on the key's text. */
  function ReadOutIntended<T>(w: Wrapper<T>, k: Key, tc: TypeCode, cases: set<TypeCode>,
                              accepts: (TypeCode, T) -> bool): (r: Result<Value>)
    ensures !ContainsKey(w, k) ==> r == Failure(DataException)
    ensures ContainsKey(w, k) && tc == DBNull ==> r == Success(Null)
    ensures ContainsKey(w, k) && tc != DBNull && (tc !in cases || !accepts(tc, Get(w, k).value.dbType)) ==>
              r == Failure(ArgumentException)
    ensures ContainsKey(w, k) && tc != DBNull && tc in cases && accepts(tc, Get(w, k).value.dbType) ==>
              r == Unbox(Get(w, k).value.value)
  {
    match Get(w, k)
    case Failure(_) => Failure(DataException)
    case Success(p) =>
      if tc == DBNull then Success(Null)
      else if tc !in cases || !accepts(tc, p.dbType) then Failure(ArgumentException)
      else Unbox(p.value)
  }

  /** The two agree on every key whose text does not break the format, so
      on every `int` key; on any other key they differ exactly where
      GetValue raises from one of its two messages. */
  lemma ReadOutAgreesWithoutBraces<T(!new)>(w: Wrapper<T>, k: Key, tc: TypeCode, cases: set<TypeCode>,
                                     accepts: (TypeCode, T) -> bool, name: T -> string)
    requires forall t :: NoBraces(name(t))
    ensures !KeyBreaksFormat(k) ==> ReadOut(w, k, tc, cases, accepts, name) == ReadOutIntended(w, k, tc, cases, accepts)
    ensures KeyBreaksFormat(k) && ReadOutIntended(w, k, tc, cases, accepts) == Failure(DataException) ==>
              ReadOut(w, k, tc, cases, accepts, name) == Failure(FormatException)
  {
  }

  /** A missing string key `a{b`, as written, raises FormatException where
      the intended getter raises DataException. */
  lemma BraceInKeyBreaksReadOut<T(!new)>(w: Wrapper<T>, tc: TypeCode, cases: set<TypeCode>,
                                  accepts: (TypeCode, T) -> bool, name: T -> string)
    requires forall t :: NoBraces(name(t))
    requires !ContainsKey(w, StrKey("a{b"))
    ensures ReadOut(w, StrKey("a{b"), tc, cases, accepts, name) == Failure(FormatException)
    ensures ReadOutIntended(w, StrKey("a{b"), tc, cases, accepts) == Failure(DataException)
  {
    FormatRejectsFormatItem("a", "b");
    assert "a" + "{" + "b" == "a{b";
  }

  /** An output parameter of type `t` that a command filled with `x` reads
      back as `x` exactly when `accepts` admits `t`; otherwise the getter
      raises ArgumentException, or FormatException for a key that breaks
      the format of the message. */
  lemma ReadFilledOutput<T(!new)>(w: Wrapper<T>, k: Key, t: T, x: string, tc: TypeCode, cases: set<TypeCode>,
                            accepts: (TypeCode, T) -> bool, name: T -> string)
    requires forall t :: NoBraces(name(t))
    requires tc != DBNull && tc in cases
    ensures var filled := SetValue(SetOut(w, k, t), k, Provider(x));
      && ReadOut(filled, k, tc, cases, accepts, name) ==
           (if accepts(tc, t) then Success(Clr(x)) else Failure(ReportedAs(ArgumentException, k)))
      && ReadOutIntended(filled, k, tc, cases, accepts) ==
           (if accepts(tc, t) then Success(Clr(x)) else Failure(ArgumentException))
  {
    var filled := SetValue(SetOut(w, k, t), k, Provider(x));
    assert Get(filled, k) == Success(Param(BoundName(k), t, Output, Provider(x)));
  }
}
