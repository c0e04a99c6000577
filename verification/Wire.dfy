/** The protocol models shared by every hop: elements, property vectors and the
    messages that carry them (src/indikit/protocol/models.py). A vector is the
    same value on the driver, on the wire, in a cache and in a browser; only the
    message around it says what is meant by it. (A `label` is called `caption` here, the former
    being a keyword.) */
module Wire {

  datatype Option<+T> = None | Some(value: T)

  type Bytes = seq<bv8>

  datatype IPState = Idle | Ok | Busy | Alert

  datatype ISState = On | Off

  datatype IPerm = RO | WO | RW

  datatype ISRule = OneOfMany | AtMostOne | AnyOfMany

  datatype Kind = NumberKind | TextKind | SwitchKind | LightKind | BlobKind

  datatype Element =
    | Number(name: string, caption: Option<string>, format: string,
             min: Option<real>, max: Option<real>, step: Option<real>, number: real)
    | Text(name: string, caption: Option<string>, text: string)
    | Switch(name: string, caption: Option<string>, switch: ISState)
    | Light(name: string, caption: Option<string>, light: IPState)
    | Blob(name: string, caption: Option<string>,
           encoding: Option<string>, size: Option<int>, data: Option<Bytes>)
  {
    function Kind(): Kind {
      match this
      case Number(_, _, _, _, _, _, _) => NumberKind
      case Text(_, _, _) => TextKind
      case Switch(_, _, _) => SwitchKind
      case Light(_, _, _) => LightKind
      case Blob(_, _, _, _, _) => BlobKind
    }
  }

  /** `perm` is absent on a light vector and `rule` is present on a switch vector
      alone; `timestamp` counts whole seconds of UTC. */
  datatype Vector = Vector(
    device: string, name: string, caption: Option<string>, group: Option<string>,
    kind: Kind, perm: Option<IPerm>, rule: Option<ISRule>,
    state: IPState, timeout: Option<real>, timestamp: Option<int>, message: Option<string>,
    elements: seq<Element>)

  datatype BlobPolicy = Never | Also | Only

  datatype IndiMessage =
    | DefVector(vector: Vector)
    | SetVector(vector: Vector, statePresent: bool)
    | NewVector(vector: Vector)
    | GetProperties(version: string, onDevice: Option<string>, onName: Option<string>)
    | DelProperty(device: string, name: Option<string>, timestamp: Option<int>, why: Option<string>)
    | Message(sender: Option<string>, timestamp: Option<int>, note: string)
    | EnableBlob(device: string, name: Option<string>, policy: BlobPolicy)

  predicate UniqueNames(elements: seq<Element>) {
    forall i, j :: 0 <= i < j < |elements| ==> elements[i].name != elements[j].name
  }

  /** The protocol's token for a state. */
  function StateText(s: IPState): string {
    match s
    case Idle => "Idle"
    case Ok => "Ok"
    case Busy => "Busy"
    case Alert => "Alert"
  }

  /** The protocol's token for a switch. */
  function SwitchText(s: ISState): string {
    if s == On then "On" else "Off"
  }

  /** A BLOB format whose payload is compressed. */
  predicate Compressed(format: Option<string>) {
    format.Some? && |format.value| >= 2 && format.value[|format.value| - 2..] == ".z"
  }

  /** Two lists of elements give the same kind to every name they share. */
  predicate KindsMatch(xs: seq<Element>, ys: seq<Element>) {
    forall i, j :: 0 <= i < |xs| && 0 <= j < |ys| && xs[i].name == ys[j].name
                   ==> xs[i].Kind() == ys[j].Kind()
  }

  /** The first of two optional values that is there. */
  function Or<T>(first: Option<T>, second: Option<T>): Option<T> {
    if first.Some? then first else second
  }
}
