/** The render context: the one mutable record that every pipeline stage reads
    and writes, its value view, the observable side effects of a stage, and the
    collaborators whose code lies outside the controller. */
module Context {
  import opened Prelude

  /** A colorsys RGB object. */
  datatype Rgb = Rgb(r: int, g: int, b: int)

  /** A colorsys HSV object. */
  datatype Hsv = Hsv(h: int, s: int, v: int)

  /** The SPI device bound to a channel, identified by its bus and chip select. */
  datatype Device = Device(bus: int, device: int)

  /** What an SPI transfer hands to its completion callback. */
  datatype Completion = Completion(err: JsValue, data: seq<byte>)

  /** Every field of the context that a modelled stage reads or writes. An
      optional field is one the source gives a default when it is undefined. */
  datatype Fields = Fields(
    channels: map<nat, Device>,
    spidevs: Option<seq<Device>>,
    channelColours: Option<map<nat, seq<Rgb>>>,
    colours: seq<Rgb>,
    hsv: Option<Hsv>,
    numLeds: Option<nat>,
    brightness: Option<real>,
    opcPort: Option<int>,
    maxPanels: Option<int>,
    frames: int,
    rate: real,
    start: int,
    lastPrint: Option<int>)

  /** One observable effect of a stage, in the order the stage produced it. */
  datatype Effect =
    | Transfer(channel: nat, device: Device, data: seq<byte>, length: nat)
    | ClientWrite(data: seq<byte>)
    | ErrorLog(error: JsValue)
    | RateReport(colour: Rgb, rate: real)

  /** The collaborators whose code is not part of the model, and the clock:
      colorsys `hsvToRgb`, `colours2sk9822`, `composeOPCMessage`, the outcome
      an SPI device reports for a transfer, and the time of the current step. */
  datatype Env = Env(
    hsvToRgb: Hsv -> Rgb,
    sk9822: (seq<Rgb>, Option<real>) -> seq<byte>,
    composeOpc: (nat, seq<Rgb>) -> seq<byte>,
    spi: (Device, seq<byte>, nat) -> Completion,
    now: int)

  /** The context after a stage (or a run of stages), the effects produced, and
      whether a stage threw, which ends the run. */
  datatype Outcome = Outcome(ctx: Fields, trace: seq<Effect>, threw: bool)

  /** The context object itself, shared by reference between the stages and
      kept alive across render steps. */
  class RenderContext {
    var channels: map<nat, Device>
    var spidevs: Option<seq<Device>>
    var channelColours: Option<map<nat, seq<Rgb>>>
    var colours: seq<Rgb>
    var hsv: Option<Hsv>
    var numLeds: Option<nat>
    var brightness: Option<real>
    var opcPort: Option<int>
    var maxPanels: Option<int>
    var frames: int
    var rate: real
    var start: int
    var lastPrint: Option<int>

    function View(): Fields
      reads this
    {
      Fields(channels, spidevs, channelColours, colours, hsv, numLeds, brightness,
             opcPort, maxPanels, frames, rate, start, lastPrint)
    }

    /** `{ ...config }`: a fresh object holding a copy of every field. */
    constructor (config: Fields)
      ensures View() == config
    {
      channels := config.channels;
      spidevs := config.spidevs;
      channelColours := config.channelColours;
      colours := config.colours;
      hsv := config.hsv;
      numLeds := config.numLeds;
      brightness := config.brightness;
      opcPort := config.opcPort;
      maxPanels := config.maxPanels;
      frames := config.frames;
      rate := config.rate;
      start := config.start;
      lastPrint := config.lastPrint;
    }
  }
}
