/** The data records the client exchanges with the server (one datatype per
    class of `Classes/`).  A C# reference that may be null is an `Option`. */
module Records {
  import opened Wrappers
  import opened Text
  import opened Json

  datatype HealthCheckResponse = HealthCheckResponse(status: Option<string>, databaseConnection: Option<string>)

  datatype ColumnInfo = ColumnInfo(
    name: Option<string>,
    columnType: Option<string>,
    pythonType: Option<string>,
    nullable: bool,
    primaryKey: bool,
    default: Option<string>,
    serverDefault: Option<string>)

  datatype ForeignKeyInfo = ForeignKeyInfo(
    name: Option<string>,
    constrainedColumns: Option<seq<string>>,
    referredSchema: Option<string>,
    referredTable: Option<string>,
    referredColumns: Option<seq<string>>)

  datatype PydanticModelsInfo = PydanticModelsInfo(read: Option<string>, create: Option<string>, update: Option<string>)

  datatype TableSchemaDetail = TableSchemaDetail(
    name: Option<string>,
    dbTableName: Option<string>,
    dbSchema: Option<string>,
    isView: bool,
    columns: Option<seq<ColumnInfo>>,
    primaryKeys: Option<seq<string>>,
    foreignKeys: Option<seq<ForeignKeyInfo>>,
    pydanticModels: Option<PydanticModelsInfo>)

  datatype ProcedureInfo = ProcedureInfo(name: Option<string>, argumentsSignature: Option<string>)

  datatype FunctionInfo = FunctionInfo(
    name: Option<string>,
    returnType: Option<string>,
    argumentsSignature: Option<string>,
    preciseReturnType: Option<string>)

  /** A page of rows as the server reports it. */
  datatype PaginatedDataResponse = PaginatedDataResponse(
    totalCount: Int32,
    limit: Int32,
    offset: Int32,
    data: Option<seq<JsonValue>>)

  /** The request body of a routine call. */
  datatype RoutineCallArgs = RoutineCallArgs(args: seq<JsonValue>, kwargs: map<string, JsonValue>)

  /** `result` is `None` when the property was absent (kind `Undefined`). */
  datatype RoutineCallResponse = RoutineCallResponse(
    status: Option<string>,
    procedureName: Option<string>,
    functionName: Option<string>,
    argsUsed: Option<seq<JsonValue>>,
    result: Option<JsonValue>)

  /** `new RoutineCallResponse()`. */
  const EmptyRoutineCallResponse := RoutineCallResponse(None, None, None, None, None)

  /** One entry of a FastAPI validation error; a `null` inside `loc` is `None`. */
  datatype FastApiValidationError = FastApiValidationError(
    loc: Option<seq<Option<JsonValue>>>,
    msg: Option<string>,
    errorType: Option<string>)
}
