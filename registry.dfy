/** The handler registry (`Callbacks`, `Bot.register_callback`,
    `Bot.register_default_callbacks`): handlers filed under the key
    (command name, specific), in registration order. */
module Registry {

  /** The handlers the bot registers itself, and any other handler by name. */
  datatype Handler =
    | CommandPing
    | CommandHelp
    | CommandHelpGeneral
    | CommandUptime
    | CommandKill
    | Custom(name: string)

  /** (command name, specific): a specific handler runs only when the bot is mentioned. */
  type CallbackKey = (string, bool)

  type Slots = map<CallbackKey, seq<Handler>>

  /** The handlers at `key`; a key never registered has none. */
  function Lookup(slots: Slots, key: CallbackKey): seq<Handler>
  {
    if key in slots then slots[key] else []
  }

  /** The registry after `h` is added at `key`: appended to that slot, which is
      created if absent; every other slot is left as it was. */
  function Added(slots: Slots, key: CallbackKey, h: Handler): (r: Slots)
    ensures r.Keys == slots.Keys + {key}
    ensures forall k :: Lookup(r, k) == if k == key then Lookup(slots, key) + [h] else Lookup(slots, k)
  {
    slots[key := Lookup(slots, key) + [h]]
  }

  /** Registering never overwrites: what a slot held before is a prefix of what it holds after. */
  lemma AddedKeepsEarlier(slots: Slots, key: CallbackKey, h: Handler, k: CallbackKey)
    ensures Lookup(slots, k) <= Lookup(Added(slots, key, h), k)
    ensures |Lookup(Added(slots, key, h), k)| == |Lookup(slots, k)| + (if k == key then 1 else 0)
  {
  }

  class Callbacks {
    var slots: Slots

    constructor()
      ensures slots == map[]
    {
      slots := map[];
    }

    /** `Callbacks.add`. */
    method Add(key: CallbackKey, h: Handler)
      modifies this
      ensures slots == Added(old(slots), key, h)
    {
      slots := slots[key := Lookup(slots, key) + [h]];
    }
  }

  /** What `Bot.register_default_callbacks` adds at each key. */
  function DefaultHandlers(key: CallbackKey): seq<Handler>
  {
    var (event, specific) := key;
    if event == "ping" then [CommandPing]
    else if event == "help" then (if specific then [CommandHelp] else [CommandHelpGeneral])
    else if event == "uptime" && specific then [CommandUptime]
    else if event == "kill" && specific then [CommandKill]
    else []
  }

  /** `ping` and `help` answer whether or not the bot is mentioned; `uptime`
      and `kill` only when it is; nothing else is registered. */
  lemma DefaultCoverage(name: string, specific: bool)
    ensures |DefaultHandlers((name, specific))| <= 1
    ensures DefaultHandlers((name, specific)) != [] <==>
      name in {"ping", "help"} || (specific && name in {"uptime", "kill"})
  {
  }

  /** The registry after the six default registrations, in source order. */
  function WithDefaults(slots: Slots): Slots
  {
    var s1 := Added(slots, ("ping", true), CommandPing);
    var s2 := Added(s1, ("ping", false), CommandPing);
    var s3 := Added(s2, ("help", true), CommandHelp);
    var s4 := Added(s3, ("help", false), CommandHelpGeneral);
    var s5 := Added(s4, ("uptime", true), CommandUptime);
    Added(s5, ("kill", true), CommandKill)
  }

  /** The default registrations append exactly `DefaultHandlers(key)` at every key. */
  lemma WithDefaultsLookup(slots: Slots, key: CallbackKey)
    ensures Lookup(WithDefaults(slots), key) == Lookup(slots, key) + DefaultHandlers(key)
  {
    var s1 := Added(slots, ("ping", true), CommandPing);
    var s2 := Added(s1, ("ping", false), CommandPing);
    var s3 := Added(s2, ("help", true), CommandHelp);
    var s4 := Added(s3, ("help", false), CommandHelpGeneral);
    var s5 := Added(s4, ("uptime", true), CommandUptime);
    var s6 := Added(s5, ("kill", true), CommandKill);
    assert WithDefaults(slots) == s6;
    var (event, specific) := key;
    if event == "ping" && specific {
      assert Lookup(s6, key) == Lookup(s1, key);
    } else if event == "ping" {
      assert Lookup(s6, key) == Lookup(s2, key) == Lookup(s1, key) + [CommandPing];
    } else if event == "help" && specific {
      assert Lookup(s6, key) == Lookup(s3, key) == Lookup(slots, key) + [CommandHelp];
    } else if event == "help" {
      assert Lookup(s6, key) == Lookup(s4, key) == Lookup(slots, key) + [CommandHelpGeneral];
    } else if event == "uptime" && specific {
      assert Lookup(s6, key) == Lookup(s5, key) == Lookup(slots, key) + [CommandUptime];
    } else if event == "kill" && specific {
      assert Lookup(s6, key) == Lookup(s5, key) + [CommandKill];
      assert Lookup(s5, key) == Lookup(slots, key);
    } else {
      assert Lookup(s6, key) == Lookup(slots, key) == Lookup(slots, key) + [];
    }
  }

  class Bot {
    const nick: string
    const callbacks: Callbacks

    /** A new bot holds exactly its default handlers. */
    constructor(nick: string)
      ensures this.nick == nick && fresh(callbacks)
      ensures forall key :: Lookup(callbacks.slots, key) == DefaultHandlers(key)
    {
      this.nick := nick;
      callbacks := new Callbacks();
      new;
      RegisterDefaultCallbacks();
    }

    /** `Bot.register_callback`: `specific` defaults to true. */
    method RegisterCallback(event: string, callback: Handler, specific: bool := true)
      modifies callbacks
      ensures callbacks.slots == Added(old(callbacks.slots), (event, specific), callback)
    {
      callbacks.Add((event, specific), callback);
    }

    /** `Bot.register_default_callbacks`. */
    method RegisterDefaultCallbacks()
      modifies callbacks
      ensures callbacks.slots == WithDefaults(old(callbacks.slots))
      ensures forall key :: Lookup(callbacks.slots, key) == Lookup(old(callbacks.slots), key) + DefaultHandlers(key)
    {
      RegisterCallback("ping", CommandPing);
      RegisterCallback("ping", CommandPing, specific := false);
      RegisterCallback("help", CommandHelp);
      RegisterCallback("help", CommandHelpGeneral, specific := false);
      RegisterCallback("uptime", CommandUptime);
      RegisterCallback("kill", CommandKill);
      forall key
        ensures Lookup(callbacks.slots, key) == Lookup(old(callbacks.slots), key) + DefaultHandlers(key)
      {
        WithDefaultsLookup(old(callbacks.slots), key);
      }
    }
  }
}
