/**
 * The scheduler side of the harvester status messages (`HarvesterStatusReceiver`): it listens on
 * the harvester status and registration-request channels, hands a ready harvester's channel to the
 * job dispatcher, and answers each registration request with one response saying whether the
 * requested harvest channel exists and whether it is a snapshot channel.
 */
module HarvesterStatus {
  import opened Basics
  import opened ChannelNaming

  /** `HarvestChannel`, as far as the receiver reads it. */
  datatype HarvestChannel = HarvestChannel(name: string, isSnapshot: bool)

  /** `HarvesterReadyMessage`: the harvester's channel name, instance id and host name. */
  datatype HarvesterReadyMessage = HarvesterReadyMessage(harvestChannelName: string, applicationInstanceId: string,
                                                         hostName: string)

  /** `HarvesterRegistrationRequest`: the channel a harvester wants to serve and the harvester's instance id. */
  datatype HarvesterRegistrationRequest = HarvesterRegistrationRequest(harvestChannelName: string, instanceId: string)

  /** `HarvesterRegistrationResponse`: the channel asked for, whether it is valid, and whether it is a snapshot channel. */
  datatype HarvesterRegistrationResponse = HarvesterRegistrationResponse(harvestChannelName: string, isValid: bool,
                                                                         isSnapshot: bool)

  /** How a call ends: normally, or with the exception it throws. */
  datatype Outcome = Done | ArgumentNotValid(argument: string) | UnknownID | NullPointer

  /** The job dispatcher, recording the channels `submitNextNewJob` was called with. */
  class JobDispatcher {
    var submitted: seq<HarvestChannel>

    constructor()
      ensures submitted == []
    {
      submitted := [];
    }

    method SubmitNextNewJob(channel: HarvestChannel)
      modifies this
      ensures submitted == old(submitted) + [channel]
    {
      submitted := submitted + [channel];
    }
  }

  /** The JMS connection: the channels the receiver listens on, and the responses sent. */
  class JMSConnection {
    var listening: set<ChannelID>
    var sent: seq<HarvesterRegistrationResponse>

    constructor()
      ensures listening == {} && sent == []
    {
      listening := {};
      sent := [];
    }

    method SetListener(channel: ChannelID)
      modifies this
      ensures listening == old(listening) + {channel} && sent == old(sent)
    {
      listening := listening + {channel};
    }

    method RemoveListener(channel: ChannelID)
      modifies this
      ensures listening == old(listening) - {channel} && sent == old(sent)
    {
      listening := listening - {channel};
    }

    method Send(response: HarvesterRegistrationResponse)
      modifies this
      ensures sent == old(sent) + [response] && listening == old(listening)
    {
      sent := sent + [response];
    }
  }

  /** The harvest-channel table (`HarvestChannelDAO`): channels by name. */
  class HarvestChannelDAO {
    const channels: map<string, HarvestChannel>

    constructor(channels: map<string, HarvestChannel>)
      ensures this.channels == channels
    {
      this.channels := channels;
    }

    /** `getByName`: the channel, or `None` where the source throws `UnknownID`. */
    function GetByName(name: string): (c: Option<HarvestChannel>)
      ensures c.Some? <==> name in channels
      ensures c.Some? ==> c.value == channels[name]
    {
      if name in channels then Some(channels[name]) else None
    }
  }

  /** The registry of harvesters per channel, recording each `register(channelName, instanceId)` call. */
  class HarvestChannelRegistry {
    var registrations: seq<(string, string)>

    constructor()
      ensures registrations == []
    {
      registrations := [];
    }

    method Register(channelName: string, instanceId: string)
      modifies this
      ensures registrations == old(registrations) + [(channelName, instanceId)]
    {
      registrations := registrations + [(channelName, instanceId)];
    }
  }

  /**
   * What a registration request is answered with: a known channel is valid and carries its
   * snapshot flag; an unknown one is invalid and reported as a snapshot channel.
   */
  function RegistrationReply(channels: map<string, HarvestChannel>, msg: HarvesterRegistrationRequest)
    : (r: HarvesterRegistrationResponse)
    ensures r.harvestChannelName == msg.harvestChannelName
    ensures r.isValid <==> msg.harvestChannelName in channels
    ensures r.isSnapshot <==> msg.harvestChannelName !in channels || channels[msg.harvestChannelName].isSnapshot
  {
    var isValid := msg.harvestChannelName in channels;
    var isSnapshot := if isValid then channels[msg.harvestChannelName].isSnapshot else true;
    HarvesterRegistrationResponse(msg.harvestChannelName, isValid, isSnapshot)
  }

  /** Whether answering a request registers the harvester: exactly when its channel is known. */
  predicate Registers(channels: map<string, HarvestChannel>, msg: HarvesterRegistrationRequest) {
    RegistrationReply(channels, msg).isValid
  }

  /** The constructor's checks: the first null among dispatcher, connection and DAO, if any. */
  function NullArgument(dispatcherGiven: bool, connectionGiven: bool, daoGiven: bool): (r: Option<string>)
    ensures r.None? <==> dispatcherGiven && connectionGiven && daoGiven
    ensures !dispatcherGiven ==> r == Some("jobDispatcher")
    ensures dispatcherGiven && !connectionGiven ==> r == Some("jmsConnection")
    ensures dispatcherGiven && connectionGiven && !daoGiven ==> r == Some("harvestChannelDao")
  {
    if !dispatcherGiven then Some("jobDispatcher")
    else if !connectionGiven then Some("jmsConnection")
    else if !daoGiven then Some("harvestChannelDao")
    else None
  }

  class HarvesterStatusReceiver {
    const jobDispatcher: JobDispatcher
    const jmsConnection: JMSConnection
    const harvestChannelDao: HarvestChannelDAO
    /** May be null: the constructor does not check it. */
    const harvestChannelRegistry: HarvestChannelRegistry?
    /** The harvester status channel (`HarvesterChannels.getHarvesterStatusChannel()`). */
    const statusChannel: ChannelID
    /** The registration-request channel (`HarvesterChannels.getHarvesterRegistrationRequestChannel()`). */
    const registrationRequestChannel: ChannelID

    constructor(jobDispatcher: JobDispatcher, jmsConnection: JMSConnection, harvestChannelDao: HarvestChannelDAO,
                harvestChannelRegistry: HarvestChannelRegistry?, statusChannel: ChannelID,
                registrationRequestChannel: ChannelID)
      ensures this.jobDispatcher == jobDispatcher && this.jmsConnection == jmsConnection
      ensures this.harvestChannelDao == harvestChannelDao && this.harvestChannelRegistry == harvestChannelRegistry
      ensures this.statusChannel == statusChannel && this.registrationRequestChannel == registrationRequestChannel
    {
      this.jobDispatcher := jobDispatcher;
      this.jmsConnection := jmsConnection;
      this.harvestChannelDao := harvestChannelDao;
      this.harvestChannelRegistry := harvestChannelRegistry;
      this.statusChannel := statusChannel;
      this.registrationRequestChannel := registrationRequestChannel;
    }

    /** `start`: listen on the status and the registration-request channels. */
    method Start()
      modifies jmsConnection
      ensures jmsConnection.listening == old(jmsConnection.listening) + {statusChannel, registrationRequestChannel}
      ensures jmsConnection.sent == old(jmsConnection.sent)
    {
      jmsConnection.SetListener(statusChannel);
      jmsConnection.SetListener(registrationRequestChannel);
    }

    /** `shutdown`: stop listening on the status channel only. */
    method Shutdown()
      modifies jmsConnection
      ensures jmsConnection.listening == old(jmsConnection.listening) - {statusChannel}
      ensures jmsConnection.sent == old(jmsConnection.sent)
    {
      jmsConnection.RemoveListener(statusChannel);
    }

    /**
     * `visit(HarvesterReadyMessage)`: a null message is refused and an unknown channel name throws
     * `UnknownID`, both before anything is submitted; otherwise the named channel is submitted once.
     */
    method VisitReady(message: Option<HarvesterReadyMessage>) returns (r: Outcome)
      modifies jobDispatcher
      ensures message.None? ==> r == ArgumentNotValid("message")
      ensures message.Some? && message.value.harvestChannelName !in harvestChannelDao.channels ==> r == UnknownID
      ensures r == Done <==> message.Some? && message.value.harvestChannelName in harvestChannelDao.channels
      ensures r == Done ==>
                (jobDispatcher.submitted
                 == old(jobDispatcher.submitted) + [harvestChannelDao.channels[message.value.harvestChannelName]])
      ensures r != Done ==> jobDispatcher.submitted == old(jobDispatcher.submitted)
    {
      if message.None? {
        return ArgumentNotValid("message");
      }
      var channel := harvestChannelDao.GetByName(message.value.harvestChannelName);
      if channel.None? {
        return UnknownID;
      }
      jobDispatcher.SubmitNextNewJob(channel.value);
      return Done;
    }

    /**
     * `visit(HarvesterRegistrationRequest)`: a null message is refused before anything happens;
     * otherwise the harvester is registered once when the channel is known, and then exactly one
     * response is sent. With a null registry, registering a known channel throws before the reply.
     */
    method VisitRegistration(msg: Option<HarvesterRegistrationRequest>) returns (r: Outcome)
      modifies jmsConnection, harvestChannelRegistry
      ensures jmsConnection.listening == old(jmsConnection.listening)
      ensures msg.None? ==> r == ArgumentNotValid("msg") && jmsConnection.sent == old(jmsConnection.sent)
      ensures msg.Some? && Registers(harvestChannelDao.channels, msg.value) && harvestChannelRegistry == null ==>
                r == NullPointer && jmsConnection.sent == old(jmsConnection.sent)
      ensures r == Done <==>
                msg.Some? && (!Registers(harvestChannelDao.channels, msg.value) || harvestChannelRegistry != null)
      ensures r == Done ==> jmsConnection.sent == old(jmsConnection.sent) + [RegistrationReply(harvestChannelDao.channels, msg.value)]
      ensures harvestChannelRegistry != null ==>
                harvestChannelRegistry.registrations
                == old(harvestChannelRegistry.registrations)
                   + (if r == Done && Registers(harvestChannelDao.channels, msg.value)
                      then [(msg.value.harvestChannelName, msg.value.instanceId)] else [])
    {
      if msg.None? {
        return ArgumentNotValid("msg");
      }
      var harvesterInstanceId := msg.value.instanceId;
      var channelName := msg.value.harvestChannelName;
      var isSnapshot := true;
      var isValid := true;
      var chan := harvestChannelDao.GetByName(channelName);
      if chan.Some? {
        isSnapshot := chan.value.isSnapshot;
      } else {
        isValid := false;
      }
      if isValid {
        if harvestChannelRegistry == null {
          return NullPointer;
        }
        harvestChannelRegistry.Register(channelName, harvesterInstanceId);
      }
      jmsConnection.Send(HarvesterRegistrationResponse(channelName, isValid, isSnapshot));
      return Done;
    }
  }

  /** The receiver's constructor with its argument checks: `None` arguments stand for null. */
  method NewHarvesterStatusReceiver(jobDispatcher: JobDispatcher?, jmsConnection: JMSConnection?,
                                    harvestChannelDao: HarvestChannelDAO?, harvestChannelRegistry: HarvestChannelRegistry?,
                                    statusChannel: ChannelID, registrationRequestChannel: ChannelID)
    returns (r: Option<HarvesterStatusReceiver>, failure: Option<string>)
    ensures failure == NullArgument(jobDispatcher != null, jmsConnection != null, harvestChannelDao != null)
    ensures r.Some? <==> failure.None?
    ensures r.Some? ==> && r.value.jobDispatcher == jobDispatcher && r.value.jmsConnection == jmsConnection
                        && r.value.harvestChannelDao == harvestChannelDao
                        && r.value.harvestChannelRegistry == harvestChannelRegistry
  {
    failure := NullArgument(jobDispatcher != null, jmsConnection != null, harvestChannelDao != null);
    if failure.Some? {
      return None, failure;
    }
    var receiver := new HarvesterStatusReceiver(jobDispatcher, jmsConnection, harvestChannelDao, harvestChannelRegistry,
                                                statusChannel, registrationRequestChannel);
    r := Some(receiver);
  }
}
