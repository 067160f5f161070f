/**
 * The application state of the window: which link kind is chosen, the serial
 * settings being edited, whether the link is up, and the `Serial` it drives;
 * plus the registry of port names filled at start-up.
 */
module App {
  import opened Wrappers
  import opened Bytes
  import SW = SerialWorker

  // ----- link kinds -----

  /** `ConnectType`: the link kinds offered by the protocol selector. */
  datatype ConnectType = Serial | Tcp | Udp | Ws

  /** The text the selector shows for each link kind (distinct ones: `LabelsDistinct`). */
  function Label(t: ConnectType): (s: string)
    ensures s != []
  {
    match t
    case Serial => "串口通讯"
    case Tcp => "TCP client"
    case Udp => "UDP client"
    case Ws => "WS client"
  }

  /** Two kinds share a label only if they are the same kind. */
  lemma LabelsDistinct(a: ConnectType, b: ConnectType)
    ensures Label(a) == Label(b) <==> a == b
  {
    if a != b {
      assert Label(a)[0] != Label(b)[0];
    }
  }

  // ----- the port registry -----

  /** One entry of the operating system's port enumeration; only its name is used. */
  datatype SerialPortInfo = SerialPortInfo(portName: string)

  /** The error the enumeration may report. */
  datatype EnumerationError = EnumerationError(description: string)

  /** The names an enumeration lists. */
  function Names(ports: seq<SerialPortInfo>): set<string>
  {
    set i | 0 <= i < |ports| :: ports[i].portName
  }

  /**
   * `SERIALS` as filled by `main`: starting empty, every enumerated port name
   * is inserted as both key and value; a failed enumeration inserts nothing.
   */
  method PopulateRegistry(enumerated: Result<seq<SerialPortInfo>, EnumerationError>)
    returns (serials: map<string, string>)
    ensures enumerated.Err? ==> serials == map[]
    ensures enumerated.Ok? ==> serials.Keys == Names(enumerated.value)
    ensures forall name | name in serials :: serials[name] == name
  {
    serials := map[];
    match enumerated {
      case Ok(ports) =>
        for i := 0 to |ports|
          invariant serials.Keys == Names(ports[..i])
          invariant forall name | name in serials :: serials[name] == name
        {
          assert Names(ports[..i + 1]) == Names(ports[..i]) + {ports[i].portName} by {
            assert forall j | 0 <= j < i :: ports[..i + 1][j] == ports[..i][j];
          }
          serials := serials[ports[i].portName := ports[i].portName];
        }
        assert ports[..|ports|] == ports;
      case Err(_) =>
    }
  }

  // ----- the application -----

  /** `SerialInfo`: the settings the next connection will use. */
  datatype SerialInfo = SerialInfo(path: string, baudRate: u32, dataBits: byte, stopBits: byte)

  /** The port settings a connection opened with `info` uses. */
  function Settings(info: SerialInfo): SW.PortSettings
  {
    SW.PortSettings(info.path, info.baudRate, info.dataBits, info.stopBits)
  }

  /** The settings shown before the user edits any of them. */
  const DefaultSerialInfo := SerialInfo("", 115200, 8, 1)

  /** `ByteWatcherApp`: the state the window's update handler reads and writes. */
  class ByteWatcherApp {
    var connected: bool
    var connectType: ConnectType
    var serialConnectInfo: SerialInfo
    var serial: Option<SW.Serial>

    /**
     * The link is up exactly when a `Serial` is stored and its reader task
     * is still held, that is, not yet closed.
     */
    predicate Valid()
      reads this, if serial.Some? then {serial.value} else {}
    {
      connected <==> serial.Some? && serial.value.handle.Some?
    }

    /** `ByteWatcherApp::default`. */
    constructor ()
      ensures !connected && connectType == Serial && serialConnectInfo == DefaultSerialInfo && serial == None
      ensures Valid()
    {
      connected := false;
      connectType := Serial;
      serialConnectInfo := DefaultSerialInfo;
      serial := None;
    }

    /**
     * The connect button. When connected it disconnects: the flag drops and
     * the stored `Serial`, if any, is closed but kept. Otherwise it connects:
     * a new `Serial` is opened with the current settings and stored, and the
     * flag rises. The link kind and the settings are not touched. Either way
     * the flag ends up telling whether the stored reader is running.
     */
    method Click()
      modifies this, if serial.Some? then {serial.value} else {}
      ensures connected == !old(connected)
      ensures connectType == old(connectType) && serialConnectInfo == old(serialConnectInfo)
      ensures old(connected) ==> serial == old(serial)
      ensures old(connected) && serial.Some? ==> serial.value.State() == SW.AfterClose(old(serial.value.State()))
      ensures !old(connected) ==> serial.Some? && fresh(serial.value)
      ensures !old(connected) && serial.Some? ==>
        serial.value.State() == SW.SerialState(Some(SW.ReaderTask(Settings(serialConnectInfo))), 0)
      ensures Valid()
    {
      if connected {
        connected := false;
        match serial {
          case Some(s) => s.Close();
          case None =>
        }
      } else {
        var s := new SW.Serial(serialConnectInfo.path, serialConnectInfo.baudRate,
          serialConnectInfo.dataBits, serialConnectInfo.stopBits);
        serial := Some(s);
        connected := true;
      }
    }
  }
}
