/**
  RowMapperResultSetExtractor<T>: maps every row a data reader yields to an
  object, passing the row's zero-based number, and collects the objects in
  reader order.  A reader is the sequence of rows its `Read()` calls
  yield and how the call after the last row ends: returning false, or
  raising; a reader that raises part-way is one whose rows stop there.  A
  row mapper is a function of the row and its number that returns an
  object or raises.
 */
module RowMapper {
  import opened Exceptions

  /** An IDataReader, as the successive outcomes of `Read()`. */
  datatype Reader<R> = Reader(rows: seq<R>, end: Outcome)

  /** An extractor holds its row mapper. */
  datatype Extractor<!R, T> = Extractor(mapper: (R, int) -> Result<T>)

  /** The constructor: a null row mapper raises ArgumentNullException. */
  function NewExtractor<R, T>(mapper: Option<(R, int) -> Result<T>>): (r: Result<Extractor<R, T>>)
    ensures mapper.None? <==> r == Failure(ArgumentNullException)
    ensures r.Success? ==> r.value.mapper == mapper.value
  {
    if mapper.None? then Failure(ArgumentNullException) else Success(Extractor(mapper.value))
  }

  /** Every row up to `n` maps without raising. */
  predicate MapsUpTo<R, T>(rows: seq<R>, mapper: (R, int) -> Result<T>, n: int)
    requires n <= |rows|
  {
    forall i :: 0 <= i < n ==> mapper(rows[i], i).Success?
  }

  /** `ExtractData(dataReader)`: a null reader raises ArgumentNullException;
      otherwise row `i` is mapped with row number `i`, and the first
      exception a mapping or a `Read()` raises propagates. */
  method ExtractData<R, T>(e: Extractor<R, T>, reader: Option<Reader<R>>) returns (r: Result<seq<T>>)
    ensures reader.None? ==> r == Failure(ArgumentNullException)
    ensures reader.Some? && r.Success? ==>
              && |r.value| == |reader.value.rows|
              && forall i :: 0 <= i < |reader.value.rows| ==> Success(r.value[i]) == e.mapper(reader.value.rows[i], i)
    ensures reader.Some? && r.Failure? ==>
              || (exists k :: 0 <= k < |reader.value.rows| && MapsUpTo(reader.value.rows, e.mapper, k) &&
                              e.mapper(reader.value.rows[k], k) == Failure(r.error))
              || (MapsUpTo(reader.value.rows, e.mapper, |reader.value.rows|) && reader.value.end == Raised(r.error))
    ensures reader.Some? ==>
              (r.Success? <==> MapsUpTo(reader.value.rows, e.mapper, |reader.value.rows|) && reader.value.end.Returned?)
  {
    if reader.None? {
      return Failure(ArgumentNullException);
    }
    var rows := reader.value.rows;
    var results: seq<T> := [];
    var rowNum := 0;
    while rowNum < |rows|
      invariant 0 <= rowNum <= |rows| && |results| == rowNum
      invariant forall i :: 0 <= i < rowNum ==> Success(results[i]) == e.mapper(rows[i], i)
    {
      var mapped := e.mapper(rows[rowNum], rowNum);
      if mapped.Failure? {
        assert MapsUpTo(rows, e.mapper, rowNum);
        return Failure(mapped.error);
      }
      results := results + [mapped.value];
      rowNum := rowNum + 1;
    }
    if reader.value.end.Raised? {
      return Failure(reader.value.end.exn);
    }
    return Success(results);
  }
}
