/**
 * The HTTP handlers of the prediction API over the files they use:
 * `metadata/<model_id>` (one JSON record per model), `models/<model_id>.h5`
 * (the trained network) and `data/` (one file per time series). What the
 * analytics engine computes (training, forecasts, residuals, correlations)
 * reaches a handler as a parameter.
 */
module Views {
  import opened Options
  import opened JsonValues
  import opened FileNames
  import opened QueryParams
  import opened Listing
  import opened Anomalies
  import opened Correlations
  import opened ModelIds

  /** The JSON body of a response. */
  datatype Body =
    | ErrorMessage(message: string)
    | Text(text: string)
    | Document(doc: Json)
    | Models(models: seq<Summary>)
    | ForecastValues(forecast: seq<real>)
    | AnomalyLists(time: seq<int>, error: seq<int>)
    | ColumnNames(columns: seq<string>)
    | InternalServerError

  datatype Response = Response(status: int, body: Body)

  /** What an exception that no handler catches turns into. */
  const SERVER_ERROR := Response(500, InternalServerError)

  const FILES_MISSING := Response(404, ErrorMessage("Metadata or model file not found"))

  /** A request body, as Flask sees it: not JSON by its content type, not decodable, or a document. */
  datatype RequestBody = NotJson | Undecodable | JsonBody(doc: Json)

  datatype Hyperparameters = Hyperparameters(
    hiddenUnits: Json,
    autoregressiveTerms: Json,
    delayLength: Json,
    outputValues: Json)

  datatype CreateRequest = CreateRequest(target: string, params: Hyperparameters)

  datatype Validation = Accepted(request: CreateRequest) | Rejected(response: Response)

  /** What `models.train_model` gives back: the two counts, or an exception. */
  datatype Training = Trained(numExamples: int, numFeatures: int) | TrainingFailed

  /** What a query to the analytics engine gives back: a value, or an exception no handler catches. */
  datatype Engine<T> = Returned(value: T) | Raised

  /** The residuals `models.get_anomalies` returns: time points and prediction errors. */
  datatype Residuals = Residuals(times: seq<int>, errors: seq<int>)

  const DEFAULT_HIDDEN_UNITS := 100
  const DEFAULT_AUTOREGRESSIVE_TERMS := 10
  const DEFAULT_DELAY_LENGTH := 10
  const DEFAULT_OUTPUT_VALUES := 10

  /** A hyperparameter that is absent or null takes its default; any other value is kept as given. */
  function WithDefault(v: Json, default: int): Json {
    if v.Null? then Int(default) else v
  }

  /** The checks and defaults of model creation, up to the point where a model id is drawn. */
  function ValidateCreate(body: RequestBody, dataFiles: set<string>): (v: Validation)
    ensures v.Accepted? <==>
      && body.JsonBody? && body.doc.Obj?
      && Get(body.doc.fields, "target_uuid").Str?
      && Get(body.doc.fields, "target_uuid").s in SeriesIds(dataFiles)
    ensures v.Rejected? ==> v.response.status == 400 || v.response.status == 500
    ensures v.Rejected? ==> (v.response.status == 500 <==> body.JsonBody? && !body.doc.Null? && !body.doc.Obj?)
    ensures v.Accepted? ==>
      var fields, p := body.doc.fields, v.request.params;
      && Str(v.request.target) == fields["target_uuid"]
      && (Get(fields, "num_hidden_units").Null? ==> p.hiddenUnits == Int(100))
      && (Get(fields, "num_autoregressive_terms").Null? ==> p.autoregressiveTerms == Int(10))
      && (Get(fields, "delay_length").Null? ==> p.delayLength == Int(10))
      && (Get(fields, "num_output_values").Null? ==> p.outputValues == Int(10))
      && (!Get(fields, "num_hidden_units").Null? ==> p.hiddenUnits == fields["num_hidden_units"])
      && (!Get(fields, "num_autoregressive_terms").Null? ==> p.autoregressiveTerms == fields["num_autoregressive_terms"])
      && (!Get(fields, "delay_length").Null? ==> p.delayLength == fields["delay_length"])
      && (!Get(fields, "num_output_values").Null? ==> p.outputValues == fields["num_output_values"])
  {
    match body
    case NotJson => Rejected(Response(400, ErrorMessage("Request must be in JSON format")))
    case Undecodable => Rejected(Response(400, ErrorMessage("Invalid JSON request")))
    case JsonBody(Null) => Rejected(Response(400, ErrorMessage("Invalid JSON request")))
    case JsonBody(Obj(fields)) =>
      var target := Get(fields, "target_uuid");
      if target.Null? then Rejected(Response(400, ErrorMessage("target_uuid not specified")))
      else if !(target.Str? && target.s in SeriesIds(dataFiles)) then
        Rejected(Response(400, ErrorMessage("target_uuid does not exist")))
      else
        Accepted(CreateRequest(target.s, Hyperparameters(
          WithDefault(Get(fields, "num_hidden_units"), DEFAULT_HIDDEN_UNITS),
          WithDefault(Get(fields, "num_autoregressive_terms"), DEFAULT_AUTOREGRESSIVE_TERMS),
          WithDefault(Get(fields, "delay_length"), DEFAULT_DELAY_LENGTH),
          WithDefault(Get(fields, "num_output_values"), DEFAULT_OUTPUT_VALUES))))
    case JsonBody(_) => Rejected(SERVER_ERROR)
  }

  /** The record written to `metadata/<id>` once training has returned its counts. */
  function MetadataRecord(id: string, request: CreateRequest, created: int, numExamples: int, numFeatures: int): Json {
    var p := request.params;
    Obj(map[
      "model_id" := Str(id),
      "target_uuid" := Str(request.target),
      "date_created" := Int(created),
      "num_hidden_units" := p.hiddenUnits,
      "num_autoregressive_terms" := p.autoregressiveTerms,
      "delay_length" := p.delayLength,
      "num_output_values" := p.outputValues,
      "num_features" := Int(numFeatures),
      "num_examples" := Int(numExamples)])
  }

  /** One pass of the listing over a record written by model creation reports it under its id and target. */
  lemma NewRecordStep(id: string, request: CreateRequest, created: int, numExamples: int, numFeatures: int)
    ensures var file := Parsed(MetadataRecord(id, request, created, numExamples, numFeatures));
      var summary := Summary(Str(id), Str(request.target));
      && StepAsWritten(file, None) == Emit(summary)
      && StepAsWritten(file, Some(request.target)) == Emit(summary)
      && Admit(file, None) == Some(summary)
      && Admit(file, Some(request.target)) == Some(summary)
  {
  }

  /**
   * Once model creation has written its record under a visible id, the
   * listing reports it, unfiltered and filtered by its target; so does the
   * listing as written, whenever it gets through.
   */
  lemma NewRecordIsListed(metadata: map<string, MetadataFile>, id: string, request: CreateRequest,
                          created: int, numExamples: int, numFeatures: int)
    requires Visible(id)
    ensures var files := metadata[id := Parsed(MetadataRecord(id, request, created, numExamples, numFeatures))];
      var names := SortedOf(VisibleNames(files.Keys));
      var summary := Summary(Str(id), Str(request.target));
      && Covers(names, files)
      && summary in Listed(names, files, None)
      && summary in Listed(names, files, Some(request.target))
      && (ListedAsWritten(names, files, None).Some? ==> summary in ListedAsWritten(names, files, None).value)
      && (ListedAsWritten(names, files, Some(request.target)).Some? ==>
            summary in ListedAsWritten(names, files, Some(request.target)).value)
  {
    var files := metadata[id := Parsed(MetadataRecord(id, request, created, numExamples, numFeatures))];
    var names := SortedOf(VisibleNames(files.Keys));
    var summary := Summary(Str(id), Str(request.target));
    assert forall k :: 0 <= k < |names| ==> names[k] in VisibleNames(files.Keys);
    assert id in VisibleNames(files.Keys);
    var k :| 0 <= k < |names| && names[k] == id;
    NewRecordStep(id, request, created, numExamples, numFeatures);
    ListedMembers(names, files, None, summary);
    ListedMembers(names, files, Some(request.target), summary);
    AsWrittenAgrees(names, files, None);
    AsWrittenAgrees(names, files, Some(request.target));
  }

  /** The three directories the handlers read and write. */
  class Store {
    /** `metadata/`: file name to contents. */
    var metadata: map<string, MetadataFile>
    /** `models/`: the names of the files in it, such as `<model_id>.h5`. */
    var modelFiles: set<string>
    /** `data/`: the names of the time-series files in it. */
    var dataFiles: set<string>

    constructor (metadata: map<string, MetadataFile>, modelFiles: set<string>, dataFiles: set<string>)
      ensures this.metadata == metadata && this.modelFiles == modelFiles && this.dataFiles == dataFiles
    {
      this.metadata := metadata;
      this.modelFiles := modelFiles;
      this.dataFiles := dataFiles;
    }

    /** `check_files`: both the metadata file and the network file of the model exist. */
    predicate CheckFiles(modelId: string)
      reads this
    {
      modelId in metadata && modelId + ".h5" in modelFiles
    }

    /** The metadata files the listing visits, in the order it visits them. */
    ghost function ListingOrder(): (names: seq<string>)
      reads this
      ensures Covers(names, metadata)
    {
      var names := SortedOf(VisibleNames(metadata.Keys));
      assert forall k :: 0 <= k < |names| ==> names[k] in VisibleNames(metadata.Keys);
      names
    }

    /**
     * `GET /models`: the summaries of the listed metadata files, in sorted
     * name order, or a 500 when some file's key tests raise.
     */
    method ListModels(target: Option<string>) returns (r: Response)
      ensures r == SERVER_ERROR <==> ListedAsWritten(ListingOrder(), metadata, target).None?
      ensures r == SERVER_ERROR <==>
        exists k :: 0 <= k < |ListingOrder()| && StepAsWritten(metadata[ListingOrder()[k]], target) == Crash
      ensures r != SERVER_ERROR ==> r == Response(200, Models(Listed(ListingOrder(), metadata, target)))
    {
      var files := SortedNames(VisibleNames(metadata.Keys));
      assert files == ListingOrder();
      AsWrittenAgrees(files, metadata, target);
      AsWrittenFails(files, metadata, target);
      var models := ListFilesAsWritten(files, metadata, target);
      match models {
        case None => r := SERVER_ERROR;
        case Some(summaries) => r := Response(200, Models(summaries));
      }
    }

    /**
     * `POST /models`: validates the request, draws an id no metadata file
     * has, trains, and only then writes the metadata record.
     */
    method CreateNewModel(body: RequestBody, created: int, draws: seq<string>, training: Training) returns (r: Response)
      requires exists k :: 0 <= k < |draws| && draws[k] !in VisibleNames(metadata.Keys)
      modifies this
      ensures modelFiles == old(modelFiles) && dataFiles == old(dataFiles)
      ensures ValidateCreate(body, old(dataFiles)).Rejected? ==>
        r == ValidateCreate(body, old(dataFiles)).response && metadata == old(metadata)
      ensures ValidateCreate(body, old(dataFiles)).Accepted? && training.TrainingFailed? ==>
        r == SERVER_ERROR && metadata == old(metadata)
      ensures ValidateCreate(body, old(dataFiles)).Accepted? && training.Trained? ==>
        exists id ::
          && id !in old(VisibleNames(metadata.Keys))
          && id in draws
          && var doc := MetadataRecord(id, ValidateCreate(body, old(dataFiles)).request, created,
                                       training.numExamples, training.numFeatures);
          && metadata == old(metadata)[id := Parsed(doc)]
          && r == Response(200, Document(doc))
          && GetModelInfo(id) == r
    {
      match ValidateCreate(body, dataFiles)
      case Rejected(response) =>
        r := response;
      case Accepted(request) =>
        var id := FreshModelId(VisibleNames(metadata.Keys), draws);
        match training
        case TrainingFailed =>
          r := SERVER_ERROR;
        case Trained(numExamples, numFeatures) =>
          var doc := MetadataRecord(id, request, created, numExamples, numFeatures);
          metadata := metadata[id := Parsed(doc)];
          r := Response(200, Document(doc));
    }

    /** `GET /models/<model_id>`: the metadata record as stored. */
    function GetModelInfo(modelId: string): (r: Response)
      reads this
      ensures r.status == 404 <==> modelId !in metadata
      ensures r.status == 200 <==> modelId in metadata && metadata[modelId].Parsed?
      ensures r.status == 200 ==> r.body == Document(metadata[modelId].doc)
      ensures r.status == 404 || r.status == 200 || r == SERVER_ERROR
    {
      if modelId !in metadata then Response(404, ErrorMessage("Model not found"))
      else
        match metadata[modelId]
        case Parsed(doc) => Response(200, Document(doc))
        case Unreadable => SERVER_ERROR
    }

    /** `DELETE /models/<model_id>`: removes whichever of the model's two files exist. */
    method DeleteModel(modelId: string) returns (r: Response)
      modifies this
      ensures metadata == old(metadata) - {modelId}
      ensures modelFiles == old(modelFiles) - {modelId + ".h5"}
      ensures dataFiles == old(dataFiles)
      ensures r == Response(200, Text("Model deleted successfully"))
      ensures !CheckFiles(modelId) && GetModelInfo(modelId).status == 404
      ensures old(modelId !in metadata && modelId + ".h5" !in modelFiles) ==> unchanged(this)
    {
      if modelId in metadata {
        metadata := metadata - {modelId};
      }
      if modelId + ".h5" in modelFiles {
        modelFiles := modelFiles - {modelId + ".h5"};
      }
      r := Response(200, Text("Model deleted successfully"));
    }

    /**
     * `GET /models/<model_id>/forecast`; `forecast` is what
     * `models.get_forecast` gives back for the record.
     */
    function GetModelForecast(modelId: string, forecast: Engine<seq<real>>): (r: Response)
      reads this
      ensures r.status == 404 <==> !CheckFiles(modelId)
      ensures r.status == 404 ==> r == FILES_MISSING
      ensures r.status == 200 <==> CheckFiles(modelId) && metadata[modelId].Parsed? && forecast.Returned?
      ensures r.status == 200 ==> r.body == ForecastValues(forecast.value)
      ensures r.status == 404 || r.status == 200 || r == SERVER_ERROR
    {
      if !CheckFiles(modelId) then FILES_MISSING
      else if metadata[modelId].Unreadable? then SERVER_ERROR
      else
        match forecast
        case Raised => SERVER_ERROR
        case Returned(values) => Response(200, ForecastValues(values))
    }

    /**
     * `GET /models/<model_id>/anomalies`; `residuals` is what
     * `models.get_anomalies` gives back for the record.
     */
    method GetModelAnomalies(modelId: string, countArg: Option<string>, residuals: Engine<Residuals>)
      returns (r: Response)
      ensures r.status == 404 <==> !CheckFiles(modelId)
      ensures r.status == 404 ==> r == FILES_MISSING
      ensures r.status == 400 <==> CheckFiles(modelId) && ParseCount(countArg).Invalid?
      ensures r.status == 400 ==> r.body == ErrorMessage(COUNT_ERROR)
      ensures r.status == 200 <==>
        CheckFiles(modelId) && ParseCount(countArg).Value? && metadata[modelId].Parsed? && residuals.Returned?
      ensures r.status == 200 ==>
        && ParseCount(countArg).Value? && residuals.Returned?
        && var ranking := Rank(residuals.value.times, residuals.value.errors, ParseCount(countArg).value);
        && r.body == AnomalyLists(ranking.0, ranking.1)
      ensures r.status == 404 || r.status == 400 || r.status == 200 || r == SERVER_ERROR
    {
      if !CheckFiles(modelId) {
        return FILES_MISSING;
      }
      var count := ParseCount(countArg);
      if count.Invalid? {
        return Response(400, ErrorMessage(count.message));
      }
      if metadata[modelId].Unreadable? {
        return SERVER_ERROR;
      }
      match residuals {
        case Raised =>
          r := SERVER_ERROR;
        case Returned(Residuals(times, errors)) =>
          var t, e := RankAnomalies(times, errors, count.value);
          r := Response(200, AnomalyLists(t, e));
      }
    }

    /**
     * `GET /models/<model_id>/correlations`; `correlations` is the ranking
     * `models.get_correlations` gives back for the record.
     */
    function GetHighestCorrelations(modelId: string, countArg: Option<string>, onlyArg: Option<string>,
                                    correlations: Engine<seq<Correlation>>): (r: Response)
      reads this
      ensures r.status == 404 <==> !CheckFiles(modelId)
      ensures r.status == 404 ==> r == FILES_MISSING
      ensures r.status == 400 <==>
        CheckFiles(modelId) && (ParseCount(countArg).Invalid? || ParseOnlyTimeseries(onlyArg).Invalid?)
      ensures r.status == 400 && ParseCount(countArg).Invalid? ==> r.body == ErrorMessage(COUNT_ERROR)
      ensures r.status == 400 && ParseCount(countArg).Value? ==> r.body == ErrorMessage(FLAG_ERROR)
      ensures r.status == 200 <==>
        CheckFiles(modelId) && ParseCount(countArg).Value? && ParseOnlyTimeseries(onlyArg).Value?
        && metadata[modelId].Parsed? && correlations.Returned?
      ensures r.status == 200 ==>
        && ParseCount(countArg).Value? && ParseOnlyTimeseries(onlyArg).Value? && correlations.Returned?
        && var count := ParseCount(countArg).value;
        && r.body == ColumnNames(Select(correlations.value, if count.Some? then count.value else DEFAULT_CORRELATION_COUNT,
                                        ParseOnlyTimeseries(onlyArg).value))
      ensures r.status == 404 || r.status == 400 || r.status == 200 || r == SERVER_ERROR
    {
      if !CheckFiles(modelId) then FILES_MISSING
      else
        match ParseCount(countArg)
        case Invalid(message) => Response(400, ErrorMessage(message))
        case Value(count) =>
          match ParseOnlyTimeseries(onlyArg)
          case Invalid(message) => Response(400, ErrorMessage(message))
          case Value(onlyTimeseries) =>
            if metadata[modelId].Unreadable? then SERVER_ERROR
            else
              match correlations
              case Raised => SERVER_ERROR
              case Returned(cs) =>
                var n := if count.Some? then count.value else DEFAULT_CORRELATION_COUNT;
                Response(200, ColumnNames(Select(cs, n, onlyTimeseries)))
    }
  }
}
