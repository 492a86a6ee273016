/**
  OracleParametersExtensions: typed setters and getters on an
  OracleParametersWrapper.  Input parameters take the OracleDbType the
  TypeCode of the set value maps to; output parameters are registered by
  TypeCode and read back through GetValue, which checks the registered
  OracleDbType against the requested TypeCode.
 */
module OracleParameters {
  import opened Exceptions
  import opened Text
  import opened Parameters

  /** Oracle.ManagedDataAccess.Client.OracleDbType. */
  datatype OracleDbType =
    | BFile | Blob | Byte | Char | Clob | Date | Decimal | Double | Long | LongRaw
    | Int16 | Int32 | Int64 | IntervalDS | IntervalYM | NClob | NChar | NVarchar2
    | Raw | RefCursor | Single | TimeStamp | TimeStampLTZ | TimeStampTZ | Varchar2
    | XmlType | BinaryDouble | BinaryFloat | Boolean

  type OracleWrapper = Wrapper<OracleDbType>

  /** `Enum.GetName(typeof(OracleDbType), t)`. */
  function TypeName(t: OracleDbType): (r: string)
    ensures r != "" && NoBraces(r)
  {
    match t
    case BFile => "BFile"
    case Blob => "Blob"
    case Byte => "Byte"
    case Char => "Char"
    case Clob => "Clob"
    case Date => "Date"
    case Decimal => "Decimal"
    case Double => "Double"
    case Long => "Long"
    case LongRaw => "LongRaw"
    case Int16 => "Int16"
    case Int32 => "Int32"
    case Int64 => "Int64"
    case IntervalDS => "IntervalDS"
    case IntervalYM => "IntervalYM"
    case NClob => "NClob"
    case NChar => "NChar"
    case NVarchar2 => "NVarchar2"
    case Raw => "Raw"
    case RefCursor => "RefCursor"
    case Single => "Single"
    case TimeStamp => "TimeStamp"
    case TimeStampLTZ => "TimeStampLTZ"
    case TimeStampTZ => "TimeStampTZ"
    case Varchar2 => "Varchar2"
    case XmlType => "XmlType"
    case BinaryDouble => "BinaryDouble"
    case BinaryFloat => "BinaryFloat"
    case Boolean => "Boolean"
  }

  /** The one TypeCode-to-OracleDbType table, shared by the input setter and
      RegisterOutParameter; other TypeCodes have no mapping. */
  function DbTypeOf(tc: TypeCode): (r: Option<OracleDbType>)
    ensures r.Some? <==> tc in {TypeCode.Int16, TypeCode.Int32, TypeCode.Int64, TypeCode.Decimal,
                               TypeCode.Double, TypeCode.String, TypeCode.DateTime, TypeCode.Boolean}
  {
    match tc
    case Int16 => Some(OracleDbType.Int16)
    case Int32 => Some(OracleDbType.Int32)
    case Int64 => Some(OracleDbType.Int64)
    case Decimal => Some(OracleDbType.Decimal)
    case Double => Some(OracleDbType.Double)
    case String => Some(Varchar2)
    case DateTime => Some(Date)
    case Boolean => Some(OracleDbType.Boolean)
    case _ => None
  }

  /** The mapping is one-to-one: a registered OracleDbType names the TypeCode
      it came from. */
  lemma DbTypeOfInjective(a: TypeCode, b: TypeCode)
    requires DbTypeOf(a).Some? && DbTypeOf(a) == DbTypeOf(b)
    ensures a == b
  {
  }

  /** The TypeCode of TValue each setter overload passes: a `decimal[]`
      is passed with TValue = double. */
  function BoundTypeCode(s: Setter, a: Arg): (r: TypeCode)
    ensures s != SetDecimal || !a.Many? ==> r == SetterTypeCode(s)
    ensures s == SetDecimal && a.Many? ==> r == TypeCode.Double
  {
    if s == SetDecimal && a.Many? then TypeCode.Double else SetterTypeCode(s)
  }

  /** SetShort, SetInt, SetLong, SetDouble, SetDecimal, SetBoolean, SetString
      and SetDateTime, in each of their overloads. */
  function Set(w: OracleWrapper, k: Key, s: Setter, a: Arg): (r: Result<OracleWrapper>)
    requires Declared(s, a)
    ensures a == ManyNullable(None) ==> r == Failure(NullReferenceException)
    ensures a != ManyNullable(None) ==> r == SetIn(w, k, BoundTypeCode(s, a), ArgValue(a).value, Input, DbTypeOf)
    ensures r.Success? && Valid(w) ==> Valid(r.value)
  {
    var v :- ArgValue(a);
    SetIn(w, k, BoundTypeCode(s, a), v, Input, DbTypeOf)
  }

  /** Every typed setter has a mapping, so on a new key it stores a
      parameter, of the OracleDbType its value type maps to. */
  lemma SettersAlwaysMap(w: OracleWrapper, k: Key, s: Setter, a: Arg)
    requires Declared(s, a) && a != ManyNullable(None) && !ContainsKey(w, k)
    ensures Set(w, k, s, a).Success?
    ensures Get(Set(w, k, s, a).value, k).value.dbType == DbTypeOf(BoundTypeCode(s, a)).value
    ensures Get(Set(w, k, s, a).value, k).value.direction == Input
  {
  }

  /** `SetDecimal(key, decimal[])` registers a Double parameter, so the
      value cannot be read back as Decimal: GetValue raises
      ArgumentException, or FormatException for a key that breaks the
      format of the message. */
  lemma DecimalArrayIsBoundAsDouble(w: OracleWrapper, k: Key, xs: seq<Value>)
    requires !ContainsKey(w, k)
    ensures var r := Set(w, k, SetDecimal, Many(Some(xs)));
      && r.Success? && Get(r.value, k).value.dbType == OracleDbType.Double
      && GetValue(r.value, k, TypeCode.Decimal) == Failure(ReportedAs(ArgumentException, k))
  {
  }

  /** Setting a present key changes only its value: a parameter registered
      as output keeps its direction and type. */
  lemma SetOnPresentKeyKeepsRegistration(w: OracleWrapper, k: Key, s: Setter, a: Arg)
    requires Declared(s, a) && a != ManyNullable(None) && ContainsKey(w, k)
    ensures var r := Set(w, k, s, a);
      && r.Success?
      && Get(r.value, k).value.dbType == Get(w, k).value.dbType
      && Get(r.value, k).value.direction == Get(w, k).value.direction
      && Get(r.value, k).value.value == Stored(ArgValue(a).value)
  {
  }

  /** SetClob and SetBlob: the value, array or not, with the given type.
      The Oracle and DB2 wrappers define these two identically; each vendor
      module keeps its own copy because each source file declares its own. */
  function SetClob(w: OracleWrapper, k: Key, v: Option<Value>): (r: OracleWrapper)
    ensures !ContainsKey(w, k) ==> Get(r, k) == Success(Param(BoundName(k), Clob, Input, Stored(v)))
    ensures ContainsKey(w, k) ==> Get(r, k).Success? && Get(r, k).value.dbType == Get(w, k).value.dbType
  {
    SetInWithType(w, k, v, Clob, Input)
  }

  function SetBlob(w: OracleWrapper, k: Key, v: Option<Value>): (r: OracleWrapper)
    ensures !ContainsKey(w, k) ==> Get(r, k) == Success(Param(BoundName(k), Blob, Input, Stored(v)))
    ensures ContainsKey(w, k) ==> Get(r, k).Success? && Get(r, k).value.dbType == Get(w, k).value.dbType
  {
    SetInWithType(w, k, v, Blob, Input)
  }

  /** `SetNull(key, typeCode)`. */
  function SetNull(w: OracleWrapper, k: Key, tc: TypeCode): (r: Result<OracleWrapper>)
    ensures r.Failure? <==> DbTypeOf(tc).None?
    ensures r.Success? ==>
              && Get(r.value, k).Success?
              && Get(r.value, k).value.value == (if tc == TypeCode.String then Clr("") else DbNull)
              && (!ContainsKey(w, k) ==> Get(r.value, k).value.dbType == DbTypeOf(tc).value)
  {
    SetNullWith(w, k, tc, DbTypeOf)
  }

  /** `RegisterOutParameter(key, typeCode)`: replaces whatever the key held
      with an output parameter of the mapped type; an unmapped TypeCode
      raises ArgumentException and changes nothing. */
  function RegisterOutParameter(w: OracleWrapper, k: Key, tc: TypeCode): (r: Result<OracleWrapper>)
    ensures r.Failure? <==> DbTypeOf(tc).None?
    ensures r.Failure? ==> r.error == ArgumentException
    ensures r.Success? ==> Get(r.value, k) == Success(Param(BoundName(k), DbTypeOf(tc).value, Output, Null))
  {
    match DbTypeOf(tc)
    case None => Failure(ArgumentException)
    case Some(t) => Success(SetOut(w, k, t))
  }

  /** `RegisterRefCursor(key)`. */
  function RegisterRefCursor(w: OracleWrapper, k: Key): (r: OracleWrapper)
    ensures Get(r, k) == Success(Param(BoundName(k), RefCursor, Output, Null))
  {
    SetOut(w, k, RefCursor)
  }

  /** The TypeCodes GetValue's switch lists besides DBNull; any other
      raises ArgumentException for a present key. */
  const Cases: set<TypeCode> := {TypeCode.Int16, TypeCode.Int32, TypeCode.Int64, TypeCode.Decimal,
                                 TypeCode.Double, TypeCode.String, TypeCode.DateTime, TypeCode.Boolean}

  /** The type check of GetValue, as written.  The String case tests
      `t != Varchar2 || t != NVarchar2 || ...`, which holds for every `t`,
      so a String is never accepted. */
  predicate Accepts(tc: TypeCode, t: OracleDbType)
    ensures Accepts(tc, t) ==> tc in Cases && tc != TypeCode.String
    ensures tc != TypeCode.String ==> (Accepts(tc, t) <==> DbTypeOf(tc) == Some(t))
  {
    match tc
    case Int16 => t == OracleDbType.Int16
    case Int32 => t == OracleDbType.Int32
    case Int64 => t == OracleDbType.Int64
    case Decimal => t == OracleDbType.Decimal
    case Double => t == OracleDbType.Double
    case String =>
      !(t != Varchar2 || t != NVarchar2 || t != OracleDbType.Char || t != NChar || t != Clob || t != NClob || t != XmlType)
    case DateTime => t == Date
    case Boolean => t == OracleDbType.Boolean
    case _ => false
  }

  /** The type check the String case evidently means: any of the character
      types. */
  predicate AcceptsIntended(tc: TypeCode, t: OracleDbType)
    ensures Accepts(tc, t) ==> AcceptsIntended(tc, t)
    ensures AcceptsIntended(tc, t) ==> tc in Cases
    ensures tc in Cases && DbTypeOf(tc) == Some(t) ==> AcceptsIntended(tc, t)
  {
    if tc == TypeCode.String then t in {Varchar2, NVarchar2, OracleDbType.Char, NChar, Clob, NClob, XmlType}
    else Accepts(tc, t)
  }

  /** Which registered types GetValue reads back as the TypeCode they
      were registered with. */
  lemma AcceptsOwnType(tc: TypeCode)
    requires DbTypeOf(tc).Some?
    ensures Accepts(tc, DbTypeOf(tc).value) <==> tc != TypeCode.String
    ensures AcceptsIntended(tc, DbTypeOf(tc).value)
  {
  }

  /** `GetValue(key, type)`, as written: both the String check and the
      messages formatted with the key in them. */
  function GetValue(w: OracleWrapper, k: Key, tc: TypeCode): (r: Result<Value>)
    ensures !ContainsKey(w, k) ==> r == Failure(ReportedAs(DataException, k))
    ensures tc == TypeCode.String ==> r.Failure?
    ensures r.Success? && tc != DBNull ==> DbTypeOf(tc) == Some(Get(w, k).value.dbType)
    ensures ContainsKey(w, k) && tc != DBNull && r.Failure? && r.error != ArgumentException ==>
              r.error == NullReferenceException || r.error == InvalidCastException ||
              (r.error == FormatException && KeyBreaksFormat(k))
  {
    ReadOut(w, k, tc, Cases, Accepts, TypeName)
  }

  /** `GetValue(key, type)` with the String check corrected and the
      messages passed as plain strings: a missing key always raises
      DataException, and a registered type the check rejects always
      ArgumentException. */
  function GetValueIntended(w: OracleWrapper, k: Key, tc: TypeCode): (r: Result<Value>)
    ensures !ContainsKey(w, k) ==> r == Failure(DataException)
    ensures ContainsKey(w, k) && tc != DBNull && !AcceptsIntended(tc, Get(w, k).value.dbType) ==>
              r == Failure(ArgumentException)
    ensures r.Success? && tc != DBNull && tc != TypeCode.String ==> DbTypeOf(tc) == Some(Get(w, k).value.dbType)
  {
    ReadOutIntended(w, k, tc, Cases, AcceptsIntended)
  }

  /** As written, GetValue on a missing string key `a{b` raises
      FormatException, not the DataException the corrected getter
      raises. */
  lemma BraceInKeyBreaksGetValue(w: OracleWrapper, tc: TypeCode)
    requires !ContainsKey(w, StrKey("a{b"))
    ensures GetValue(w, StrKey("a{b"), tc) == Failure(FormatException)
    ensures GetValueIntended(w, StrKey("a{b"), tc) == Failure(DataException)
  {
    BraceInKeyBreaksReadOut(w, tc, Cases, Accepts, TypeName);
  }

  /** GetShort, GetInt, GetLong, GetString, GetBoolean and GetDateTime:
      GetValue with their value type's TypeCode. */
  function GetTyped(w: OracleWrapper, k: Key, s: Setter): (r: Result<Value>)
    requires s != SetDecimal && s != SetDouble
    ensures r == GetValue(w, k, SetterTypeCode(s))
    ensures s == SetString ==> r.Failure?
  {
    GetValue(w, k, SetterTypeCode(s))
  }

  /** Registering an output parameter, letting the command fill it with
      `x`, and reading it back with the same TypeCode gives `x` for every
      mapped TypeCode but String, which raises ArgumentException, or
      FormatException for a key that breaks the format of the message. */
  lemma OutputRoundTrip(w: OracleWrapper, k: Key, tc: TypeCode, x: string)
    requires DbTypeOf(tc).Some?
    ensures var reg := RegisterOutParameter(w, k, tc).value;
      var filled := SetValue(reg, k, Provider(x));
      GetValue(filled, k, tc) ==
        if tc == TypeCode.String then Failure(ReportedAs(ArgumentException, k)) else Success(Clr(x))
  {
    AcceptsOwnType(tc);
    ReadFilledOutput(w, k, DbTypeOf(tc).value, x, tc, Cases, Accepts, TypeName);
  }

  /** With the corrected check the round trip holds for String too. */
  lemma OutputRoundTripIntended(w: OracleWrapper, k: Key, tc: TypeCode, x: string)
    requires DbTypeOf(tc).Some?
    ensures var reg := RegisterOutParameter(w, k, tc).value;
      GetValueIntended(SetValue(reg, k, Provider(x)), k, tc) == Success(Clr(x))
  {
    AcceptsOwnType(tc);
    ReadFilledOutput(w, k, DbTypeOf(tc).value, x, tc, Cases, AcceptsIntended, TypeName);
  }

  /** Reading an output parameter before any command filled it raises
      NullReferenceException (the registered value is null). */
  lemma UnfilledOutputRaises(w: OracleWrapper, k: Key, tc: TypeCode)
    requires DbTypeOf(tc).Some? && tc != TypeCode.String
    ensures GetValue(RegisterOutParameter(w, k, tc).value, k, tc) == Failure(NullReferenceException)
  {
  }
}
