/** The browser display of the Raspberry Pi analyzer as the server sees it
    (RpiSpectrumAnalyzer/WebDisplay.cs). It keeps the web display's settings,
    turns each frame's bands into levels and broadcasts them, as one event, to
    every connected client whose socket is open. The JSON encoding and the
    socket send are left out: a broadcast is modelled by its event and the
    positions, in the client list, of the clients it is sent to. */
module WebDisplay {
  import opened Prelude
  import opened Levels
  import opened DisplayConfig

  /** `System.Net.WebSockets.WebSocketState`. */
  datatype SocketState = NoState | Connecting | Open | CloseSent | CloseReceived | Closed | Aborted

  /** A `SocketClient`; a null socket is `None`. */
  datatype SocketClient = SocketClient(id: Option<string>, socket: Option<SocketState>)

  /** The events the display sends. */
  datatype Event = Display(levels: seq<LevelInfo>) | Command(name: string)

  /** A client `SendToClients` writes to: present, with a socket that is open. */
  predicate Reachable(client: Option<SocketClient>)
  {
    client.Some? && client.value.socket == Some(Open)
  }

  /** The positions of the reachable clients, in list order. */
  function OpenPositions(clients: seq<Option<SocketClient>>): seq<int>
    decreases |clients|
  {
    if |clients| == 0 then []
    else OpenPositions(clients[..|clients| - 1]) + (if Reachable(clients[|clients| - 1]) then [|clients| - 1] else [])
  }

  /** The clients a broadcast reaches; a null list reaches nobody. */
  function Recipients(clients: Option<seq<Option<SocketClient>>>): seq<int>
  {
    if clients.None? then [] else OpenPositions(clients.value)
  }

  /** A configuration object as `UpdateConfiguration` receives it: the record
      and whether its run-time class is the derived `WebDisplayConfiguration`
      that the `as` cast asks for. */
  datatype ConfigObject = ConfigObject(config: DisplayConfiguration, isWebDisplayConfiguration: bool)

  /** The update guard: the object is there, is tagged WEB and is a
      `WebDisplayConfiguration`. */
  predicate Accepts(obj: Option<ConfigObject>)
  {
    obj.Some? && obj.value.config.displayType == WEB && obj.value.isWebDisplayConfiguration
  }

  /** The configurable settings of the display. */
  datatype Settings = Settings(
    transitionSpeed: real, peakWait: int, peakWaitCountDown: int, amplificationFactor: int,
    showPeaks: bool, showPeaksWhenSilent: bool)

  predicate Positive(s: Settings)
  {
    s.peakWait > 0 && s.peakWaitCountDown > 0 && s.transitionSpeed > 0.0 && s.amplificationFactor > 0
  }

  /** The settings after `UpdateConfiguration(obj)`: a refused object changes
      nothing; an accepted one replaces each numeric setting by a positive
      incoming value and keeps it otherwise, and copies the two flags. */
  function Configured(s: Settings, obj: Option<ConfigObject>): (r: Settings)
    ensures !Accepts(obj) ==> r == s
    ensures Accepts(obj) ==> r.showPeaks == obj.value.config.showPeaks && r.showPeaksWhenSilent == obj.value.config.showPeaksWhenSilent
    ensures Positive(s) ==> Positive(r)
  {
    if !Accepts(obj) then s
    else
      var c := obj.value.config;
      Settings(
        PositiveOrReal(c.transitionSpeed, s.transitionSpeed),
        PositiveOr(c.peakWait, s.peakWait),
        PositiveOr(c.peakWaitCountDown, s.peakWaitCountDown),
        PositiveOr(c.amplificationFactor, s.amplificationFactor),
        c.showPeaks, c.showPeaksWhenSilent)
  }

  /** The record `GetConfiguration` returns for the given settings: tagged WEB,
      the six settings and no brightness support; rows, columns and every
      minimum and maximum are left at 0. The colours the derived class
      carries are not part of this model. */
  function Reported(s: Settings): (r: ConfigObject)
    ensures Accepts(Some(r))
  {
    ConfigObject(
      DisplayConfiguration(
        WEB, 0, 0,
        0, 0, 0,
        0.0, s.transitionSpeed, 0.0,
        0, s.peakWait, 0,
        0, s.peakWaitCountDown, 0,
        0, s.amplificationFactor, 0,
        s.showPeaks, s.showPeaksWhenSilent, false,
        None, None, None, None),
      true)
  }

  class Display {
    const rows: int
    const cols: int

    var transitionSpeed: real
    var peakWait: int
    var peakWaitCountDown: int
    var amplificationFactor: int
    var showPeaks: bool
    var showPeaksWhenSilent: bool
    /** `SocketClients`: a settable list, possibly null, of possibly null clients. */
    var socketClients: Option<seq<Option<SocketClient>>>

    /** A new display with the web defaults and no clients. */
    constructor(rows: int, cols: int)
      ensures this.rows == rows && this.cols == cols
      ensures transitionSpeed == 2.0 && peakWait == 500 && peakWaitCountDown == 20
      ensures amplificationFactor == 5000 && showPeaks && showPeaksWhenSilent
      ensures Positive(Current())
      ensures socketClients == Some([])
    {
      this.rows := rows;
      this.cols := cols;
      transitionSpeed := 2.0;
      peakWait := 500;
      peakWaitCountDown := 20;
      amplificationFactor := 5000;
      showPeaks := true;
      showPeaksWhenSilent := true;
      socketClients := Some([]);
    }

    function Current(): Settings
      reads this
    {
      Settings(transitionSpeed, peakWait, peakWaitCountDown, amplificationFactor, showPeaks, showPeaksWhenSilent)
    }

    /** `GetConfiguration`: the current settings, in a record this display's
        own guard accepts. */
    function GetConfiguration(): (r: ConfigObject)
      reads this
      ensures Accepts(Some(r))
      ensures Positive(Current()) ==> Configured(Current(), Some(r)) == Current()
    {
      Reported(Current())
    }

    /** `UpdateConfiguration`: the settings follow `Configured`; the client
        list is untouched. */
    method UpdateConfiguration(obj: Option<ConfigObject>)
      modifies this
      ensures Current() == Configured(old(Current()), obj)
      ensures socketClients == old(socketClients)
    {
      if !(obj.Some? && obj.value.config.displayType == WEB) {
        return;
      }
      if !obj.value.isWebDisplayConfiguration {
        return;
      }
      var c := obj.value.config;
      peakWait := PositiveOr(c.peakWait, peakWait);
      peakWaitCountDown := PositiveOr(c.peakWaitCountDown, peakWaitCountDown);
      transitionSpeed := PositiveOrReal(c.transitionSpeed, transitionSpeed);
      amplificationFactor := PositiveOr(c.amplificationFactor, amplificationFactor);
      showPeaks := c.showPeaks;
      showPeaksWhenSilent := c.showPeaksWhenSilent;
    }

    /** `Clear`: the `clear` command to every reachable client. */
    method Clear() returns (event: Event, sent: seq<int>)
      ensures event == Command("clear")
      ensures sent == Recipients(socketClients)
    {
      event := Command("clear");
      sent := SendToClients(event);
    }

    /** `DisplayAsLevels`: the bands amplified, normalised and quantised to the
        rows, one level per band in band order, each in [0, rows], sent to
        every reachable client. */
    method DisplayAsLevels(bands: seq<BandInfo>) returns (event: Event, sent: seq<int>)
      ensures event == Display(Levels.DisplayLevels(bands, amplificationFactor, rows))
      ensures rows >= 0 ==> |event.levels| == |bands| && forall i :: 0 <= i < |bands| ==>
        event.levels[i].band == bands[i].band && 0 <= event.levels[i].level <= rows
      ensures sent == Recipients(socketClients)
    {
      var levels := Levels.DisplayLevels(bands, amplificationFactor, rows);
      if rows >= 0 {
        DisplayLevelsBounded(bands, amplificationFactor, rows);
      }
      event, sent := DisplayLevels(levels);
    }

    /** `DisplayLevels`: the levels as a DISPLAY event to every reachable client. */
    method DisplayLevels(targetLevels: seq<LevelInfo>) returns (event: Event, sent: seq<int>)
      ensures event == Display(targetLevels)
      ensures sent == Recipients(socketClients)
    {
      event := Display(targetLevels);
      sent := SendToClients(event);
    }

    /** `SendToClients`: nothing without clients; otherwise a send to each
        client, in list order, that is present and has an open socket. */
    method SendToClients(content: Event) returns (sent: seq<int>)
      ensures sent == Recipients(socketClients)
    {
      sent := [];
      if socketClients.None? || |socketClients.value| == 0 {
        return;
      }
      var clients := socketClients.value;
      for i := 0 to |clients|
        invariant sent == OpenPositions(clients[..i])
      {
        assert clients[..i + 1][..i] == clients[..i];
        if !Reachable(clients[i]) {
          continue;
        }
        sent := sent + [i];
      }
      assert clients[..|clients|] == clients;
    }
  }

  // ---------------------------------------------------------------------------
  // Properties

  /** A broadcast reaches exactly the present clients with an open socket,
      each once, in list order. */
  lemma {:induction false} OpenPositionsExactly(clients: seq<Option<SocketClient>>)
    ensures forall i :: i in OpenPositions(clients) <==> 0 <= i < |clients| && Reachable(clients[i])
    ensures forall j, k :: 0 <= j < k < |OpenPositions(clients)| ==> OpenPositions(clients)[j] < OpenPositions(clients)[k]
    decreases |clients|
  {
    if |clients| > 0 {
      var front := clients[..|clients| - 1];
      OpenPositionsExactly(front);
      assert forall i :: 0 <= i < |front| ==> front[i] == clients[i];
      assert forall j :: 0 <= j < |OpenPositions(front)| ==> OpenPositions(front)[j] in OpenPositions(front);
    }
  }

  /** Without reachable clients a broadcast goes nowhere. */
  lemma NoOpenSocketNoSend(clients: seq<Option<SocketClient>>)
    requires forall i :: 0 <= i < |clients| ==> !Reachable(clients[i])
    ensures OpenPositions(clients) == []
  {
    OpenPositionsExactly(clients);
  }

  /** A positive incoming value is taken and any other is ignored, field by
      field, once the guard has passed. */
  lemma ConfiguredNumeric(s: Settings, obj: Option<ConfigObject>)
    requires Accepts(obj)
    ensures var r := Configured(s, obj); var c := obj.value.config;
      && (c.peakWait > 0 ==> r.peakWait == c.peakWait) && (c.peakWait <= 0 ==> r.peakWait == s.peakWait)
      && (c.peakWaitCountDown > 0 ==> r.peakWaitCountDown == c.peakWaitCountDown)
      && (c.peakWaitCountDown <= 0 ==> r.peakWaitCountDown == s.peakWaitCountDown)
      && (c.transitionSpeed > 0.0 ==> r.transitionSpeed == c.transitionSpeed)
      && (c.transitionSpeed <= 0.0 ==> r.transitionSpeed == s.transitionSpeed)
      && (c.amplificationFactor > 0 ==> r.amplificationFactor == c.amplificationFactor)
      && (c.amplificationFactor <= 0 ==> r.amplificationFactor == s.amplificationFactor)
  {
  }

  /** A record tagged WEB whose run-time class is the base class, which is
      what a deserialised `DisplayConfiguration` is, is refused. */
  lemma BaseClassRefused(s: Settings, c: DisplayConfiguration)
    ensures Configured(s, Some(ConfigObject(c, false))) == s
  {
  }

  /** Applying the same configuration twice is the same as applying it once. */
  lemma ConfiguredIdempotent(s: Settings, obj: Option<ConfigObject>)
    ensures Configured(Configured(s, obj), obj) == Configured(s, obj)
  {
  }

  /** Feeding the display its own configuration back changes nothing. */
  lemma ReportedRoundTrip(s: Settings)
    requires Positive(s)
    ensures Configured(s, Some(Reported(s))) == s
  {
  }
}
