/**
 * The run header (AbstractRunHeader with its RunHeader implementation):
 * a run number fixed at construction, run start and end times, a detector
 * name, a description and three independent maps of named parameters.
 * A getter on a name that was never set throws std::out_of_range (map::at):
 * here it returns None.
 */
module RunHeaders {
  import opened Wrappers

  /** C++ int. */
  type Int32 = x: int | -0x8000_0000 <= x < 0x8000_0000

  /** C++ float, kept as its bit pattern; no arithmetic is done on it. */
  datatype Float32 = Float32(bits: bv32)

  class RunHeader {
    const runNumber: Int32
    var runStart: Int32
    var runEnd: Int32
    var detectorName: string
    var description: string
    var stringParams: map<string, string>
    var intParams: map<string, Int32>
    var floatParams: map<string, Float32>

    /** The state of a header that was just made for the given run. */
    predicate IsFresh(run: Int32)
      reads this
    {
      && runNumber == run && runStart == 0 && runEnd == 0
      && detectorName == "" && description == ""
      && stringParams == map[] && intParams == map[] && floatParams == map[]
    }

    /** RunHeader(runNumber): every other member takes its default. */
    constructor (runNumber: Int32)
      ensures IsFresh(runNumber)
    {
      this.runNumber := runNumber;
      runStart := 0;
      runEnd := 0;
      detectorName := "";
      description := "";
      stringParams := map[];
      intParams := map[];
      floatParams := map[];
    }

    /** The default constructor of AbstractRunHeader (used to fill a header from a file): run 0. */
    constructor Default()
      ensures IsFresh(0)
    {
      runNumber := 0;
      runStart := 0;
      runEnd := 0;
      detectorName := "";
      description := "";
      stringParams := map[];
      intParams := map[];
      floatParams := map[];
    }

    function GetRunNumber(): (r: Int32)
      reads this
      ensures r == runNumber
    {
      runNumber
    }

    method SetRunStart(start: Int32)
      modifies this`runStart
      ensures runStart == start
      ensures GetRunStart() == start
    {
      runStart := start;
    }

    function GetRunStart(): Int32
      reads this
    {
      runStart
    }

    method SetRunEnd(end: Int32)
      modifies this`runEnd
      ensures runEnd == end
      ensures GetRunEnd() == end
    {
      runEnd := end;
    }

    function GetRunEnd(): Int32
      reads this
    {
      runEnd
    }

    method SetDetectorName(name: string)
      modifies this`detectorName
      ensures GetDetectorName() == name
    {
      detectorName := name;
    }

    function GetDetectorName(): string
      reads this
    {
      detectorName
    }

    method SetDescription(text: string)
      modifies this`description
      ensures GetDescription() == text
    {
      description := text;
    }

    function GetDescription(): string
      reads this
    {
      description
    }

    /** setStringParameter: insert or overwrite; the other names keep their values. */
    method SetStringParameter(name: string, value: string)
      modifies this`stringParams
      ensures GetStringParameter(name) == Some(value)
      ensures forall n :: n != name ==> GetStringParameter(n) == old(GetStringParameter(n))
      ensures stringParams.Keys == old(stringParams.Keys) + {name}
    {
      stringParams := stringParams[name := value];
    }

    /** getStringParameter: map::at. */
    function GetStringParameter(name: string): (r: Option<string>)
      reads this
      ensures r.Some? <==> name in stringParams
      ensures r.Some? ==> r.value == stringParams[name]
    {
      if name in stringParams then Some(stringParams[name]) else None
    }

    function GetStringParameters(): map<string, string>
      reads this
    {
      stringParams
    }

    method SetIntParameter(name: string, value: Int32)
      modifies this`intParams
      ensures GetIntParameter(name) == Some(value)
      ensures forall n :: n != name ==> GetIntParameter(n) == old(GetIntParameter(n))
      ensures intParams.Keys == old(intParams.Keys) + {name}
    {
      intParams := intParams[name := value];
    }

    function GetIntParameter(name: string): (r: Option<Int32>)
      reads this
      ensures r.Some? <==> name in intParams
      ensures r.Some? ==> r.value == intParams[name]
    {
      if name in intParams then Some(intParams[name]) else None
    }

    function GetIntParameters(): map<string, Int32>
      reads this
    {
      intParams
    }

    method SetFloatParameter(name: string, value: Float32)
      modifies this`floatParams
      ensures GetFloatParameter(name) == Some(value)
      ensures forall n :: n != name ==> GetFloatParameter(n) == old(GetFloatParameter(n))
      ensures floatParams.Keys == old(floatParams.Keys) + {name}
    {
      floatParams := floatParams[name := value];
    }

    function GetFloatParameter(name: string): (r: Option<Float32>)
      reads this
      ensures r.Some? <==> name in floatParams
      ensures r.Some? ==> r.value == floatParams[name]
    {
      if name in floatParams then Some(floatParams[name]) else None
    }

    function GetFloatParameters(): map<string, Float32>
      reads this
    {
      floatParams
    }
  }

  /**
   * The test producer's beforeNewRun: the run number is stored as an int
   * parameter, and the check of the written file reads it back unchanged.
   */
  method RecordRunNumber(h: RunHeader)
    modifies h`intParams
    ensures h.GetIntParameter("Should Be Run Number") == Some(h.GetRunNumber())
    ensures h.GetStringParameters() == old(h.GetStringParameters())
    ensures h.GetFloatParameters() == old(h.GetFloatParameters())
  {
    h.SetIntParameter("Should Be Run Number", h.GetRunNumber());
  }
}
