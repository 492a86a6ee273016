/**
  DB2ParametersExtensions: typed setters and getters on a
  DB2ParametersWrapper.  The same scheme as the Oracle extensions, with
  DB2Type for the driver type, no Decimal or Boolean setters, and a
  separate table for output parameters.
 */
module DB2Parameters {
  import opened Exceptions
  import opened Text
  import opened Parameters

  /** IBM.Data.DB2.DB2Type, the members the extensions use or test for, plus
      a few others. */
  datatype DB2Type =
    | BigInt | Binary | Blob | Char | Clob | Date | DbClob | Decimal | Double | Graphic
    | Int8 | Integer | Real | SmallInt | Time | Timestamp | VarChar | VarGraphic | Xml

  type DB2Wrapper = Wrapper<DB2Type>

  /** `Enum.GetName(typeof(DB2Type), t)`. */
  function TypeName(t: DB2Type): (r: string)
    ensures r != "" && NoBraces(r)
  {
    match t
    case BigInt => "BigInt"
    case Binary => "Binary"
    case Blob => "Blob"
    case Char => "Char"
    case Clob => "Clob"
    case Date => "Date"
    case DbClob => "DbClob"
    case Decimal => "Decimal"
    case Double => "Double"
    case Graphic => "Graphic"
    case Int8 => "Int8"
    case Integer => "Integer"
    case Real => "Real"
    case SmallInt => "SmallInt"
    case Time => "Time"
    case Timestamp => "Timestamp"
    case VarChar => "VarChar"
    case VarGraphic => "VarGraphic"
    case Xml => "Xml"
  }

  /** The table of the input setter. */
  function InTypeOf(tc: TypeCode): (r: Option<DB2Type>)
    ensures r.Some? <==> tc in {TypeCode.Int16, TypeCode.Int32, TypeCode.Int64, TypeCode.Decimal,
                               TypeCode.Double, TypeCode.String, TypeCode.DateTime}
  {
    match tc
    case Int16 => Some(SmallInt)
    case Int32 => Some(Integer)
    case Int64 => Some(BigInt)
    case Decimal => Some(DB2Type.Decimal)
    case Double => Some(DB2Type.Double)
    case String => Some(VarChar)
    case DateTime => Some(Date)
    case _ => None
  }

  /** The table of RegisterOutParameter, as written: the input table, except
      that Int64 becomes Int8. */
  function OutTypeOf(tc: TypeCode): (r: Option<DB2Type>)
    ensures r.Some? <==> InTypeOf(tc).Some?
    ensures tc != TypeCode.Int64 ==> r == InTypeOf(tc)
    ensures tc == TypeCode.Int64 ==> r == Some(Int8)
  {
    match tc
    case Int16 => Some(SmallInt)
    case Int32 => Some(Integer)
    case Int64 => Some(Int8)
    case Decimal => Some(DB2Type.Decimal)
    case Double => Some(DB2Type.Double)
    case String => Some(VarChar)
    case DateTime => Some(Date)
    case _ => None
  }

  /** SetShort, SetInt, SetLong, SetDouble, SetString and SetDateTime, in
      each of their overloads; DB2 declares no Decimal or Boolean setter. */
  function Set(w: DB2Wrapper, k: Key, s: Setter, a: Arg): (r: Result<DB2Wrapper>)
    requires Declared(s, a) && s != SetDecimal && s != SetBoolean
    ensures a == ManyNullable(None) ==> r == Failure(NullReferenceException)
    ensures a != ManyNullable(None) ==> r.Success?
    ensures r.Success? && !ContainsKey(w, k) ==>
              Get(r.value, k) == Success(Param(BoundName(k), InTypeOf(SetterTypeCode(s)).value, Input,
                                               Stored(ArgValue(a).value)))
    ensures r.Success? && ContainsKey(w, k) ==> r.value == SetValue(w, k, Stored(ArgValue(a).value))
    ensures r.Success? && Valid(w) ==> Valid(r.value)
  {
    var v :- ArgValue(a);
    SetIn(w, k, SetterTypeCode(s), v, Input, InTypeOf)
  }

  /** SetClob and SetBlob. */
  function SetClob(w: DB2Wrapper, k: Key, v: Option<Value>): (r: DB2Wrapper)
    ensures !ContainsKey(w, k) ==> Get(r, k) == Success(Param(BoundName(k), Clob, Input, Stored(v)))
    ensures ContainsKey(w, k) ==> Get(r, k).Success? && Get(r, k).value.dbType == Get(w, k).value.dbType
  {
    SetInWithType(w, k, v, Clob, Input)
  }

  function SetBlob(w: DB2Wrapper, k: Key, v: Option<Value>): (r: DB2Wrapper)
    ensures !ContainsKey(w, k) ==> Get(r, k) == Success(Param(BoundName(k), Blob, Input, Stored(v)))
    ensures ContainsKey(w, k) ==> Get(r, k).Success? && Get(r, k).value.dbType == Get(w, k).value.dbType
  {
    SetInWithType(w, k, v, Blob, Input)
  }

  /** `SetNull(key, typeCode)`: Boolean is not among the accepted
      TypeCodes. */
  function SetNull(w: DB2Wrapper, k: Key, tc: TypeCode): (r: Result<DB2Wrapper>)
    ensures r.Failure? <==> InTypeOf(tc).None?
    ensures tc == TypeCode.Boolean ==> r == Failure(ArgumentException)
    ensures r.Success? ==>
              && Get(r.value, k).Success?
              && Get(r.value, k).value.value == (if tc == TypeCode.String then Clr("") else DbNull)
  {
    SetNullWith(w, k, tc, InTypeOf)
  }

  /** `RegisterOutParameter(key, typeCode)`, as written. */
  function RegisterOutParameter(w: DB2Wrapper, k: Key, tc: TypeCode): (r: Result<DB2Wrapper>)
    ensures r.Failure? <==> OutTypeOf(tc).None?
    ensures r.Failure? ==> r.error == ArgumentException
    ensures r.Success? ==> Get(r.value, k) == Success(Param(BoundName(k), OutTypeOf(tc).value, Output, Null))
  {
    match OutTypeOf(tc)
    case None => Failure(ArgumentException)
    case Some(t) => Success(SetOut(w, k, t))
  }

  /** `RegisterOutParameter` with the table GetValue expects: the input
      table, BigInt for Int64. */
  function RegisterOutParameterIntended(w: DB2Wrapper, k: Key, tc: TypeCode): (r: Result<DB2Wrapper>)
    ensures r.Failure? <==> InTypeOf(tc).None?
    ensures r.Failure? ==> r.error == ArgumentException
    ensures r.Success? ==> Get(r.value, k) == Success(Param(BoundName(k), InTypeOf(tc).value, Output, Null))
  {
    match InTypeOf(tc)
    case None => Failure(ArgumentException)
    case Some(t) => Success(SetOut(w, k, t))
  }

  /** The TypeCodes GetValue's switch lists besides DBNull; any other
      raises ArgumentException for a present key. */
  const Cases: set<TypeCode> := {TypeCode.Int16, TypeCode.Int32, TypeCode.Int64, TypeCode.Decimal,
                                 TypeCode.Double, TypeCode.String, TypeCode.DateTime}

  /** The type check of GetValue, as written.  The String case tests
      `t != Char || t != VarChar || ...`, which holds for every `t`;
      DateTime accepts Date, Timestamp and Time. */
  predicate Accepts(tc: TypeCode, t: DB2Type)
    ensures Accepts(tc, t) ==> tc in Cases && tc != TypeCode.String
    ensures tc != TypeCode.String && tc != TypeCode.DateTime ==> (Accepts(tc, t) <==> InTypeOf(tc) == Some(t))
    ensures tc == TypeCode.DateTime && (InTypeOf(tc) == Some(t) || OutTypeOf(tc) == Some(t)) ==> Accepts(tc, t)
  {
    match tc
    case Int16 => t == SmallInt
    case Int32 => t == Integer
    case Int64 => t == BigInt
    case Decimal => t == DB2Type.Decimal
    case Double => t == DB2Type.Double
    case String =>
      !(t != DB2Type.Char || t != VarChar || t != Graphic || t != VarGraphic || t != Clob || t != DbClob)
    case DateTime => t == Date || t == Timestamp || t == Time
    case _ => false
  }

  /** The String check the source evidently means. */
  predicate AcceptsIntended(tc: TypeCode, t: DB2Type)
    ensures Accepts(tc, t) ==> AcceptsIntended(tc, t)
    ensures AcceptsIntended(tc, t) ==> tc in Cases
    ensures tc in Cases && InTypeOf(tc) == Some(t) ==> AcceptsIntended(tc, t)
  {
    if tc == TypeCode.String then t in {DB2Type.Char, VarChar, Graphic, VarGraphic, Clob, DbClob}
    else Accepts(tc, t)
  }

  /** Which registered types GetValue reads back as the TypeCode they
      were registered with: as written, the Int8 of an Int64 output and
      every String fail the check. */
  lemma AcceptsOwnType(tc: TypeCode)
    requires InTypeOf(tc).Some?
    ensures Accepts(tc, OutTypeOf(tc).value) <==> tc !in {TypeCode.Int64, TypeCode.String}
    ensures AcceptsIntended(tc, InTypeOf(tc).value)
  {
  }

  /** `GetValue(key, type)`, as written: both the String check and the
      messages formatted with the key in them. */
  function GetValue(w: DB2Wrapper, k: Key, tc: TypeCode): (r: Result<Value>)
    ensures !ContainsKey(w, k) ==> r == Failure(ReportedAs(DataException, k))
    ensures tc == TypeCode.String || tc == TypeCode.Boolean || tc == TypeCode.Object ==> r.Failure?
    ensures r.Success? && tc != DBNull && tc != TypeCode.DateTime ==> InTypeOf(tc) == Some(Get(w, k).value.dbType)
    ensures ContainsKey(w, k) && tc != DBNull && r.Failure? && r.error != ArgumentException ==>
              r.error == NullReferenceException || r.error == InvalidCastException ||
              (r.error == FormatException && KeyBreaksFormat(k))
  {
    ReadOut(w, k, tc, Cases, Accepts, TypeName)
  }

  /** `GetValue(key, type)` with the String check corrected and the
      messages passed as plain strings: a missing key always raises
      DataException, and a registered type the check rejects always
      ArgumentException. */
  function GetValueIntended(w: DB2Wrapper, k: Key, tc: TypeCode): (r: Result<Value>)
    ensures !ContainsKey(w, k) ==> r == Failure(DataException)
    ensures ContainsKey(w, k) && tc != DBNull && !AcceptsIntended(tc, Get(w, k).value.dbType) ==>
              r == Failure(ArgumentException)
    ensures r.Success? && tc != DBNull && tc != TypeCode.DateTime && tc != TypeCode.String ==>
              InTypeOf(tc) == Some(Get(w, k).value.dbType)
  {
    ReadOutIntended(w, k, tc, Cases, AcceptsIntended)
  }

  /** As written, GetValue on a missing string key `a{b` raises
      FormatException, not the DataException the corrected getter
      raises. */
  lemma BraceInKeyBreaksGetValue(w: DB2Wrapper, tc: TypeCode)
    requires !ContainsKey(w, StrKey("a{b"))
    ensures GetValue(w, StrKey("a{b"), tc) == Failure(FormatException)
    ensures GetValueIntended(w, StrKey("a{b"), tc) == Failure(DataException)
  {
    BraceInKeyBreaksReadOut(w, tc, Cases, Accepts, TypeName);
  }

  /** `GetTimeSpan(key)`: TimeSpan's TypeCode is Object, which GetValue's
      switch does not list, so the getter always raises: ArgumentException
      (its message is not formatted) for a present key, the missing-key
      exception otherwise. */
  function GetTimeSpan(w: DB2Wrapper, k: Key): (r: Result<Value>)
    ensures r.Failure? && r.error == (if ContainsKey(w, k) then ArgumentException else ReportedAs(DataException, k))
  {
    GetValue(w, k, TypeCode.Object)
  }

  /** Registering an Int64 output, letting the command fill it, and reading
      it back with GetLong raises ArgumentException, or FormatException for
      a key that breaks the format of the message: the parameter was
      registered as Int8 and GetValue wants BigInt. */
  lemma LongOutputNeverReads(w: DB2Wrapper, k: Key, x: string)
    ensures var reg := RegisterOutParameter(w, k, TypeCode.Int64).value;
      GetValue(SetValue(reg, k, Provider(x)), k, TypeCode.Int64) == Failure(ReportedAs(ArgumentException, k))
  {
    ReadFilledOutput(w, k, Int8, x, TypeCode.Int64, Cases, Accepts, TypeName);
  }

  /** Reading a filled output parameter back with the TypeCode it was
      registered with, as written: Int16, Int32, Decimal, Double and
      DateTime give the value; Int64 and String raise ArgumentException, or
      FormatException for a key that breaks the format of the message. */
  lemma OutputRoundTrip(w: DB2Wrapper, k: Key, tc: TypeCode, x: string)
    requires OutTypeOf(tc).Some?
    ensures var reg := RegisterOutParameter(w, k, tc).value;
      GetValue(SetValue(reg, k, Provider(x)), k, tc) ==
        if tc in {TypeCode.Int64, TypeCode.String} then Failure(ReportedAs(ArgumentException, k)) else Success(Clr(x))
  {
    AcceptsOwnType(tc);
    ReadFilledOutput(w, k, OutTypeOf(tc).value, x, tc, Cases, Accepts, TypeName);
  }

  /** With both corrections every registered TypeCode reads back. */
  lemma OutputRoundTripIntended(w: DB2Wrapper, k: Key, tc: TypeCode, x: string)
    requires InTypeOf(tc).Some?
    ensures var reg := RegisterOutParameterIntended(w, k, tc).value;
      GetValueIntended(SetValue(reg, k, Provider(x)), k, tc) == Success(Clr(x))
  {
    AcceptsOwnType(tc);
    ReadFilledOutput(w, k, InTypeOf(tc).value, x, tc, Cases, AcceptsIntended, TypeName);
  }
}
