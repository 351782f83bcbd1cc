/** Start-up settings of the whisper server (`main`): the command-line
    defaults, the device auto-detection and the compute-type default. */
module Device {
  import opened Wrappers

  /** The parsed command line: `--socket`, `--pidfile`, `--model`,
      `--device`, `--compute-type`. */
  datatype Arguments = Arguments(socket: string, pidfile: Option<string>, model: string,
                                 device: string, computeType: Option<string>)

  /** What the model is loaded with. */
  datatype Settings = Settings(model: string, device: string, computeType: string)

  const DefaultModel: string := "large-v3"
  const AutoDevice: string := "auto"
  const Cuda: string := "cuda"
  const Cpu: string := "cpu"
  const HalfPrecision: string := "float16"
  const Int8: string := "int8"

  /** The command line with only the required socket path given. */
  function DefaultArguments(socket: string): (a: Arguments)
    ensures a.socket == socket && a.pidfile.None?
    ensures a.model == DefaultModel && a.device == AutoDevice && a.computeType.None?
  {
    Arguments(socket, None, DefaultModel, AutoDevice, None)
  }

  /** The device actually used. `torch` is the accelerator probe: `None`
      when the probing library cannot be imported, otherwise whether an
      accelerator is available. Only `auto` is resolved; any other
      selector is passed through unchanged. */
  function ResolveDevice(requested: string, torch: Option<bool>): (d: string)
    ensures requested != AutoDevice ==> d == requested
    ensures requested == AutoDevice ==> (d == Cuda || d == Cpu)
    ensures requested == AutoDevice ==> (d == Cuda <==> torch == Some(true))
  {
    if requested != AutoDevice then requested
    else
      match torch
      case None => Cpu
      case Some(available) => if available then Cuda else Cpu
  }

  /** The compute type actually used: the one requested, or by default
      half precision on the accelerator and 8-bit integers elsewhere. */
  function ResolveComputeType(requested: Option<string>, device: string): (c: string)
    ensures requested.Some? ==> c == requested.value
    ensures requested.None? ==> (c == HalfPrecision || c == Int8)
    ensures requested.None? ==> (c == HalfPrecision <==> device == Cuda)
  {
    match requested
    case Some(t) => t
    case None => if device == Cuda then HalfPrecision else Int8
  }

  /** The settings `main` passes to `load_model`. */
  function Resolve(args: Arguments, torch: Option<bool>): (s: Settings)
    ensures s.model == args.model
    ensures s.device == ResolveDevice(args.device, torch)
    ensures s.computeType == ResolveComputeType(args.computeType, s.device)
  {
    var device := ResolveDevice(args.device, torch);
    Settings(args.model, device, ResolveComputeType(args.computeType, device))
  }

  /** With every option left at its default, the server loads `large-v3`
      in half precision on an available accelerator and as 8-bit integers
      on the CPU otherwise, including when the probe library is missing. */
  lemma DefaultSettings(socket: string, torch: Option<bool>)
    ensures Resolve(DefaultArguments(socket), torch) ==
              if torch == Some(true) then Settings(DefaultModel, Cuda, HalfPrecision)
              else Settings(DefaultModel, Cpu, Int8)
  {
  }

  /** Naming the device explicitly bypasses the probe entirely. */
  lemma ExplicitDeviceIgnoresProbe(args: Arguments, torch1: Option<bool>, torch2: Option<bool>)
    requires args.device != AutoDevice
    ensures Resolve(args, torch1) == Resolve(args, torch2)
  {
  }
}
