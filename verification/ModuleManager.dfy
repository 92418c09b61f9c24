/**
 The registry of loaded modules: four tables that are kept in step, and where modules come from.
 */
module ModuleManager {
  import opened Paths

  type Guid = nat

  const NULL_GUID: Guid := 0

  datatype Source = SHIPPED_WITH_INTEGRA | THIRD_PARTY | EMBEDDED | IN_DEVELOPMENT

  datatype RegistryError =
    SUCCESS | FAILED | INPUT_ERROR | FILE_VALIDATION_ERROR | MODULE_ALREADY_INSTALLED | FILE_ERROR

  class InterfaceDefinition {
    const moduleId: Guid
    const originId: Guid
    const name: string
    const isCore: bool
    const implementedInLibintegra: bool
    var source: Source

    constructor (moduleId: Guid, originId: Guid, name: string, isCore: bool, implementedInLibintegra: bool)
      requires moduleId != NULL_GUID
      ensures this.moduleId == moduleId && this.originId == originId && this.name == name
      ensures this.isCore == isCore && this.implementedInLibintegra == implementedInLibintegra
    {
      this.moduleId, this.originId, this.name := moduleId, originId, name;
      this.isCore, this.implementedInLibintegra, source := isCore, implementedInLibintegra, THIRD_PARTY;
    }
  }

  // ---------------------------------------------------------------- which modules have instances

  /** A node, by the module it is an instance of, and the nodes below it. */
  datatype Instance = Instance(moduleId: Guid, children: seq<Instance>)

  /** The address leads, by a place among siblings at each step down, to an instance of the module. */
  predicate IsAt(nodes: seq<Instance>, address: seq<nat>, id: Guid)
    decreases |address|
  {
    && address != [] && address[0] < |nodes|
    && if |address| == 1 then nodes[address[0]].moduleId == id else IsAt(nodes[address[0]].children, address[1..], id)
  }

  ghost predicate HasInstance(nodes: seq<Instance>, id: Guid) {
    exists address :: IsAt(nodes, address, id)
  }

  /** An instance is the first node, or lies below it, or is found among or below the others. */
  lemma InstanceIsSomewhere(nodes: seq<Instance>, id: Guid)
    ensures HasInstance(nodes, id) <==>
              nodes != [] && (nodes[0].moduleId == id || HasInstance(nodes[0].children, id) || HasInstance(nodes[1..], id))
  {
    if HasInstance(nodes, id) {
      var address :| IsAt(nodes, address, id);
      if address[0] > 0 {
        OneOn(nodes, address, id);
      } else if |address| > 1 {
        assert IsAt(nodes[0].children, address[1..], id);
      }
    }
    if nodes != [] {
      if nodes[0].moduleId == id {
        assert IsAt(nodes, [0], id);
      }
      if HasInstance(nodes[0].children, id) {
        var address :| IsAt(nodes[0].children, address, id);
        assert ([0] + address)[1..] == address;
        assert IsAt(nodes, [0] + address, id);
      }
      if HasInstance(nodes[1..], id) {
        var address :| IsAt(nodes[1..], address, id);
        OneBack(nodes, address, id);
      }
    }
  }

  lemma OneOn(nodes: seq<Instance>, address: seq<nat>, id: Guid)
    requires IsAt(nodes, address, id) && address[0] > 0
    ensures HasInstance(nodes[1..], id)
  {
    var other := [address[0] - 1] + address[1..];
    assert other[1..] == address[1..];
    assert IsAt(nodes[1..], other, id);
  }

  lemma OneBack(nodes: seq<Instance>, address: seq<nat>, id: Guid)
    requires nodes != [] && IsAt(nodes[1..], address, id)
    ensures HasInstance(nodes, id)
  {
    var other := [address[0] + 1] + address[1..];
    assert other[1..] == address[1..];
    assert IsAt(nodes, other, id);
  }

  /** Searches a sibling map and everything below it. */
  function IsModuleInUse(nodes: seq<Instance>, id: Guid): (used: bool)
    ensures used <==> HasInstance(nodes, id)
  {
    InstanceIsSomewhere(nodes, id);
    nodes != [] && (nodes[0].moduleId == id || IsModuleInUse(nodes[0].children, id) || IsModuleInUse(nodes[1..], id))
  }

  /** Takes out of a set what has an instance anywhere. */
  function RemoveInUse(nodes: seq<Instance>, ids: set<Guid>): (left: set<Guid>)
    ensures forall id :: id in left <==> id in ids && !HasInstance(nodes, id)
  {
    InstancesAreSomewhere(nodes);
    if nodes == [] then ids
    else RemoveInUse(nodes[1..], RemoveInUse(nodes[0].children, ids - {nodes[0].moduleId}))
  }

  lemma InstancesAreSomewhere(nodes: seq<Instance>)
    ensures forall id :: HasInstance(nodes, id) <==>
              nodes != [] && (nodes[0].moduleId == id || HasInstance(nodes[0].children, id) || HasInstance(nodes[1..], id))
  {
    forall id ensures HasInstance(nodes, id) <==>
              nodes != [] && (nodes[0].moduleId == id || HasInstance(nodes[0].children, id) || HasInstance(nodes[1..], id))
    {
      InstanceIsSomewhere(nodes, id);
    }
  }

  /** Both find exactly what has an address, however far down. */
  lemma FoundByAddress(nodes: seq<Instance>, ids: set<Guid>, id: Guid)
    ensures IsModuleInUse(nodes, id) ==> exists address :: IsAt(nodes, address, id)
    ensures forall address :: IsAt(nodes, address, id) ==> IsModuleInUse(nodes, id)
    ensures id in RemoveInUse(nodes, ids) ==> id in ids && forall address :: !IsAt(nodes, address, id)
    ensures id in ids && id !in RemoveInUse(nodes, ids) ==> exists address :: IsAt(nodes, address, id)
  {
  }

  /** What is found below any of the nodes is found from above. */
  lemma FoundFromAbove(nodes: seq<Instance>, i: nat, id: Guid)
    requires i < |nodes| && (nodes[i].moduleId == id || IsModuleInUse(nodes[i].children, id))
    ensures IsModuleInUse(nodes, id)
  {
    if nodes[i].moduleId == id {
      assert IsAt(nodes, [i], id);
    } else {
      var address :| IsAt(nodes[i].children, address, id);
      assert ([i] + address)[1..] == address;
      assert IsAt(nodes, [i] + address, id);
    }
  }

  // ---------------------------------------------------------------- the registry

  /** The tables agree: a module is filed under its own id, and what is filed by origin or by core name
      is loaded and has that origin or name. */
  ghost predicate TablesAgree(ids: set<Guid>, byId: map<Guid, InterfaceDefinition>, byOrigin: map<Guid, InterfaceDefinition>,
                              byCoreName: map<string, InterfaceDefinition>)
  {
    && ids == byId.Keys
    && (forall id :: id in byId ==> byId[id].moduleId == id && id != NULL_GUID)
    && (forall o :: o in byOrigin ==>
          byOrigin[o].originId == o && byOrigin[o].moduleId in byId && byId[byOrigin[o].moduleId] == byOrigin[o])
    && (forall n :: n in byCoreName ==>
          && byCoreName[n].name == n && byCoreName[n].isCore
          && byCoreName[n].moduleId in byId && byId[byCoreName[n].moduleId] == byCoreName[n])
  }

  /** Every loaded module can be found by its origin, if not as itself then as another of that origin. */
  ghost predicate OriginsFiled(byId: map<Guid, InterfaceDefinition>, byOrigin: map<Guid, InterfaceDefinition>) {
    forall id :: id in byId ==> byId[id].originId in byOrigin
  }

  /** Every loaded core module can be found by its name. */
  ghost predicate CoreNamesFiled(byId: map<Guid, InterfaceDefinition>, byCoreName: map<string, InterfaceDefinition>) {
    forall id :: id in byId && byId[id].isCore ==> byId[id].name in byCoreName
  }

  /** Another loaded module has the origin of `d`. */
  ghost predicate SharesOrigin(byId: map<Guid, InterfaceDefinition>, d: InterfaceDefinition) {
    exists id :: id in byId && id != d.moduleId && byId[id].originId == d.originId
  }

  /** Another loaded core module has the name of `d`. */
  ghost predicate SharesCoreName(byId: map<Guid, InterfaceDefinition>, d: InterfaceDefinition) {
    exists id :: id in byId && id != d.moduleId && byId[id].isCore && byId[id].name == d.name
  }

  /** Loading a module keeps what is found, and lets the new module be found. */
  lemma LoadedIsFiled(byId: map<Guid, InterfaceDefinition>, byOrigin: map<Guid, InterfaceDefinition>,
                      byCoreName: map<string, InterfaceDefinition>, d: InterfaceDefinition)
    requires d.moduleId !in byId
    ensures OriginsFiled(byId[d.moduleId := d], Filed(byOrigin, d.originId, d)) <==>
              forall id :: id in byId ==> byId[id].originId in byOrigin || byId[id].originId == d.originId
    ensures OriginsFiled(byId, byOrigin) ==> OriginsFiled(byId[d.moduleId := d], Filed(byOrigin, d.originId, d))
    ensures CoreNamesFiled(byId, byCoreName) ==>
              CoreNamesFiled(byId[d.moduleId := d], if d.isCore then Filed(byCoreName, d.name, d) else byCoreName)
  {
    var now := byId[d.moduleId := d];
    assert forall id :: id in now <==> id in byId || id == d.moduleId;
    forall id | id in byId ensures id in now && now[id] == byId[id] {
    }
  }

  /** Unloading a module keeps the others found by origin exactly unless the entry is its own and another
      loaded module has the same origin; and likewise by name for core modules. */
  lemma UnloadedIsFiled(byId: map<Guid, InterfaceDefinition>, byOrigin: map<Guid, InterfaceDefinition>,
                        byCoreName: map<string, InterfaceDefinition>, d: InterfaceDefinition)
    requires d.moduleId in byId && byId[d.moduleId] == d
    requires OriginsFiled(byId, byOrigin) && CoreNamesFiled(byId, byCoreName)
    ensures OriginsFiled(byId - {d.moduleId}, Unfiled(byOrigin, d.originId, d)) <==>
              !(byOrigin[d.originId] == d && SharesOrigin(byId, d))
    ensures CoreNamesFiled(byId - {d.moduleId}, if d.isCore then Unfiled(byCoreName, d.name, d) else byCoreName) <==>
              !(d.isCore && byCoreName[d.name] == d && SharesCoreName(byId, d))
  {
    var now := byId - {d.moduleId};
    forall id | id in byId && id != d.moduleId ensures id in now && now[id] == byId[id] {
    }
  }

  /** At most one module is in development, and what libIntegra implements itself is shipped with it. */
  ghost predicate SourcesFit(byId: map<Guid, InterfaceDefinition>)
    reads byId.Values
  {
    && (forall id, other :: id in byId && other in byId ==>
          (byId[id].source == IN_DEVELOPMENT && byId[other].source == IN_DEVELOPMENT ==> id == other))
    && (forall id :: id in byId && byId[id].implementedInLibintegra ==> byId[id].source == SHIPPED_WITH_INTEGRA)
  }

  /** What is filed of a new definition under its origin or its name, if that is free. */
  function Filed<K(==)>(table: map<K, InterfaceDefinition>, key: K, d: InterfaceDefinition): map<K, InterfaceDefinition> {
    if key in table then table else table[key := d]
  }

  /** What is left when a definition goes that may be filed under its origin or its name. */
  function Unfiled<K(==)>(table: map<K, InterfaceDefinition>, key: K, d: InterfaceDefinition): map<K, InterfaceDefinition> {
    if key in table && table[key] == d then table - {key} else table
  }

  /** Filing leaves what is there, and gives only a free key to the new one. */
  lemma FiledMeans<K>(table: map<K, InterfaceDefinition>, key: K, d: InterfaceDefinition)
    ensures forall k :: k in Filed(table, key, d) <==> k in table || k == key
    ensures forall k :: k in table ==> Filed(table, key, d)[k] == table[k]
    ensures key !in table ==> Filed(table, key, d)[key] == d
  {
  }

  /** Taking out removes at most the one key, and that only from the definition itself. */
  lemma UnfiledMeans<K>(table: map<K, InterfaceDefinition>, key: K, d: InterfaceDefinition)
    ensures forall k :: k in Unfiled(table, key, d) <==> k in table && !(k == key && table[k] == d)
    ensures forall k :: k in Unfiled(table, key, d) ==> Unfiled(table, key, d)[k] == table[k]
  {
  }

  lemma FiledAgrees(ids: set<Guid>, byId: map<Guid, InterfaceDefinition>, byOrigin: map<Guid, InterfaceDefinition>,
                    byCoreName: map<string, InterfaceDefinition>, d: InterfaceDefinition)
    requires TablesAgree(ids, byId, byOrigin, byCoreName) && d.moduleId !in byId && d.moduleId != NULL_GUID
    ensures TablesAgree(ids + {d.moduleId}, byId[d.moduleId := d], Filed(byOrigin, d.originId, d),
                        if d.isCore then Filed(byCoreName, d.name, d) else byCoreName)
  {
  }

  lemma UnfiledAgrees(ids: set<Guid>, byId: map<Guid, InterfaceDefinition>, byOrigin: map<Guid, InterfaceDefinition>,
                      byCoreName: map<string, InterfaceDefinition>, d: InterfaceDefinition)
    requires TablesAgree(ids, byId, byOrigin, byCoreName) && d.moduleId in byId && byId[d.moduleId] == d
    ensures TablesAgree(ids - {d.moduleId}, byId - {d.moduleId}, Unfiled(byOrigin, d.originId, d),
                        if d.isCore then Unfiled(byCoreName, d.name, d) else byCoreName)
  {
    forall o | o in Unfiled(byOrigin, d.originId, d) ensures byOrigin[o] != d {
    }
  }

  lemma AgreeAt(ids: set<Guid>, byId: map<Guid, InterfaceDefinition>, byOrigin: map<Guid, InterfaceDefinition>,
                byCoreName: map<string, InterfaceDefinition>)
    requires TablesAgree(ids, byId, byOrigin, byCoreName)
    ensures ids == byId.Keys && forall id :: id in byId ==> byId[id].moduleId == id && id != NULL_GUID
    ensures byId == map[] ==> byOrigin == map[] && byCoreName == map[]
  {
  }

  /** A new definition fits in if it is no second one in development. */
  lemma SourceFits(byId: map<Guid, InterfaceDefinition>, d: InterfaceDefinition)
    requires SourcesFit(byId) && d.moduleId !in byId
    requires d.source == IN_DEVELOPMENT ==> forall k :: k in byId ==> byId[k].source != IN_DEVELOPMENT
    requires d.implementedInLibintegra ==> d.source == SHIPPED_WITH_INTEGRA
    ensures SourcesFit(byId[d.moduleId := d])
  {
  }

  lemma SourceFiled(byId: map<Guid, InterfaceDefinition>, d: InterfaceDefinition)
    requires d.moduleId !in byId
    ensures SourcesOf(byId[d.moduleId := d]) == SourcesOf(byId)[d.moduleId := d.source]
  {
  }

  lemma FewerSourcesFit(byId: map<Guid, InterfaceDefinition>, id: Guid)
    requires SourcesFit(byId)
    ensures SourcesFit(byId - {id})
  {
  }

  ghost function SourcesOf(byId: map<Guid, InterfaceDefinition>): map<Guid, Source>
    reads byId.Values
  {
    map k | k in byId :: byId[k].source
  }

  ghost predicate NoneInDevelopment(byId: map<Guid, InterfaceDefinition>)
    reads byId.Values
  {
    forall k :: k in byId ==> byId[k].source != IN_DEVELOPMENT
  }

  lemma NoneInDevelopmentAt(byId: map<Guid, InterfaceDefinition>)
    ensures NoneInDevelopment(byId) <==> forall k :: k in byId ==> byId[k].source != IN_DEVELOPMENT
  {
  }

  datatype Snapshot = Snapshot(byId: map<Guid, InterfaceDefinition>, sources: map<Guid, Source>)

  /** A module that was in development is embedded or gone; the others are as they were. */
  ghost predicate IsPutAway(now: Snapshot, before: Snapshot, id: Guid, remains: bool, nodes: seq<Instance>) {
    && id in before.byId && id in before.sources && before.sources[id] == IN_DEVELOPMENT
    && (remains <==> HasInstance(nodes, id))
    && now.byId == (if remains then before.byId else before.byId - {id})
    && now.sources == if remains then before.sources[id := EMBEDDED] else before.sources - {id}
  }

  lemma MakePutAway(now: Snapshot, before: Snapshot, id: Guid, remains: bool, nodes: seq<Instance>)
    requires id in before.byId && id in before.sources && before.sources[id] == IN_DEVELOPMENT
    requires remains <==> HasInstance(nodes, id)
    requires now.byId == if remains then before.byId else before.byId - {id}
    requires now.sources == if remains then before.sources[id := EMBEDDED] else before.sources - {id}
    ensures IsPutAway(now, before, id, remains, nodes)
  {
  }

  ghost predicate AtMostOneInDevelopment(s: Snapshot) {
    forall j, k :: j in s.sources && k in s.sources && s.sources[j] == s.sources[k] == IN_DEVELOPMENT ==> j == k
  }

  lemma SourcesAt(byId: map<Guid, InterfaceDefinition>)
    ensures SourcesOf(byId).Keys == byId.Keys && forall k :: k in byId ==> SourcesOf(byId)[k] == byId[k].source
  {
  }

  lemma FirstForgotten(origin: Guid, first: InterfaceDefinition, second: InterfaceDefinition)
    ensures Unfiled(Filed(Filed(map[], origin, first), origin, second), origin, first) == map[]
  {
  }

  lemma WithoutKey(keys: seq<Guid>, i: nat)
    requires i < |keys| && forall j, k :: 0 <= j < k < |keys| ==> keys[j] != keys[k]
    ensures var rest := keys[..i] + keys[i + 1..];
            && (forall k :: k in rest <==> k in keys && k != keys[i])
            && (forall j, k :: 0 <= j < k < |rest| ==> rest[j] != rest[k])
  {
    var rest := keys[..i] + keys[i + 1..];
    forall k | k in keys && k != keys[i] ensures k in rest {
      var j :| 0 <= j < |keys| && keys[j] == k;
      assert rest[if j < i then j else j - 1] == k;
    }
    assert forall j :: 0 <= j < |rest| ==> rest[j] == keys[if j < i then j else j + 1];
  }

  class Registry {
    var ids: set<Guid>
    var byId: map<Guid, InterfaceDefinition>
    var byOrigin: map<Guid, InterfaceDefinition>
    var byCoreName: map<string, InterfaceDefinition>

    ghost predicate Valid()
      reads this, byId.Values
    {
      TablesAgree(ids, byId, byOrigin, byCoreName) && SourcesFit(byId)
    }

    constructor ()
      ensures Valid() && byId == map[]
    {
      ids, byId, byOrigin, byCoreName := {}, map[], map[], map[];
    }

    /** Every loaded module is found by its origin, and every core module by its name. */
    ghost predicate AllFiled()
      reads this
    {
      OriginsFiled(byId, byOrigin) && CoreNamesFiled(byId, byCoreName)
    }

    lemma FiledAt(definition: InterfaceDefinition)
      requires definition.moduleId in byId && byId[definition.moduleId] == definition
      ensures AllFiled() ==> definition.originId in byOrigin && (definition.isCore ==> definition.name in byCoreName)
    {
    }

    /** Files a definition that has been read from a module file, if there is one and it is new. */
    method LoadModule(definition: InterfaceDefinition?, source: Source) returns (loaded: bool, id: Guid)
      requires Valid()
      requires definition != null ==> definition.moduleId != NULL_GUID && definition !in byId.Values
      requires source == IN_DEVELOPMENT ==> forall k :: k in byId ==> byId[k].source != IN_DEVELOPMENT
      modifies this, definition
      ensures Valid()
      ensures id == if definition == null then NULL_GUID else definition.moduleId
      ensures loaded <==> definition != null && id !in old(byId)
                          && (definition.implementedInLibintegra ==> source == SHIPPED_WITH_INTEGRA)
      ensures !loaded ==> byId == old(byId) && byOrigin == old(byOrigin) && byCoreName == old(byCoreName)
      ensures loaded ==>
                && byId == old(byId)[id := definition] && definition.source == source
                && byOrigin == Filed(old(byOrigin), definition.originId, definition)
                && byCoreName == if definition.isCore then Filed(old(byCoreName), definition.name, definition) else old(byCoreName)
      ensures SourcesOf(byId) == if loaded then old(SourcesOf(byId))[id := source] else old(SourcesOf(byId))
      ensures old(OriginsFiled(byId, byOrigin)) ==> OriginsFiled(byId, byOrigin)
      ensures old(CoreNamesFiled(byId, byCoreName)) ==> CoreNamesFiled(byId, byCoreName)
    {
      hide TablesAgree, SourcesFit, SourcesOf, OriginsFiled, CoreNamesFiled;
      id := NULL_GUID;
      if definition == null {
        return false, id;
      }
      id := definition.moduleId;
      if id in byId {
        return false, id;
      }
      if definition.implementedInLibintegra && source != SHIPPED_WITH_INTEGRA {
        return false, id;
      }
      FiledAgrees(ids, byId, byOrigin, byCoreName, definition);
      LoadedIsFiled(byId, byOrigin, byCoreName, definition);
      definition.source := source;
      SourceFits(byId, definition);
      SourceFiled(byId, definition);
      byId := byId[id := definition];
      if definition.originId !in byOrigin {
        byOrigin := byOrigin[definition.originId := definition];
      }
      if definition.isCore {
        if definition.name !in byCoreName {
          byCoreName := byCoreName[definition.name := definition];
        }
      }
      ids := ids + {id};
      loaded := true;
    }

    /** Takes a module out of the tables; entries by origin and name go only if they are its own. */
    method UnloadModule(definition: InterfaceDefinition)
      requires Valid() && definition.moduleId in byId && byId[definition.moduleId] == definition
      modifies this
      ensures Valid()
      ensures byId == old(byId) - {definition.moduleId}
      ensures byOrigin == Unfiled(old(byOrigin), definition.originId, definition)
      ensures byCoreName == if definition.isCore then Unfiled(old(byCoreName), definition.name, definition) else old(byCoreName)
      ensures old(AllFiled()) ==>
                && (OriginsFiled(byId, byOrigin) <==>
                      !old(byOrigin[definition.originId] == definition && SharesOrigin(byId, definition)))
                && (CoreNamesFiled(byId, byCoreName) <==>
                      !old(definition.isCore && byCoreName[definition.name] == definition && SharesCoreName(byId, definition)))
    {
      hide TablesAgree, SourcesFit, OriginsFiled, CoreNamesFiled, SharesOrigin, SharesCoreName;
      FiledAt(definition);
      if AllFiled() {
        UnloadedIsFiled(byId, byOrigin, byCoreName, definition);
      }
      UnfiledAgrees(ids, byId, byOrigin, byCoreName, definition);
      FewerSourcesFit(byId, definition.moduleId);
      byId := byId - {definition.moduleId};
      if definition.originId in byOrigin {
        if byOrigin[definition.originId] == definition {
          byOrigin := byOrigin - {definition.originId};
        }
      }
      if definition.isCore {
        if definition.name in byCoreName {
          if byCoreName[definition.name] == definition {
            byCoreName := byCoreName - {definition.name};
          }
        }
      }
      ids := ids - {definition.moduleId};
    }

    /** Changes where a module comes from; what is shipped stays so. */
    method ChangeModuleSource(definition: InterfaceDefinition, source: Source) returns (error: RegistryError)
      requires Valid() && definition in byId.Values && source != IN_DEVELOPMENT
      modifies definition
      ensures Valid()
      ensures error == if old(definition.source) == SHIPPED_WITH_INTEGRA || source == SHIPPED_WITH_INTEGRA || old(definition.source) == source
                       then INPUT_ERROR else SUCCESS
      ensures definition.source == if error == SUCCESS then source else old(definition.source)
      ensures SourcesOf(byId) == if error == SUCCESS then old(SourcesOf(byId))[definition.moduleId := source] else old(SourcesOf(byId))
    {
      ValidParts();
      if definition.source == SHIPPED_WITH_INTEGRA || source == SHIPPED_WITH_INTEGRA {
        return INPUT_ERROR;
      }
      if definition.source == source {
        return INPUT_ERROR;
      }
      definition.source := source;
      error := SUCCESS;
    }

    method InstallModule(definition: InterfaceDefinition?) returns (error: RegistryError, id: Guid)
      requires Valid() && (definition != null ==> definition.moduleId != NULL_GUID && definition !in byId.Values)
      modifies this, definition, byId.Values
      ensures Valid()
      ensures id == if definition == null then NULL_GUID else definition.moduleId
      ensures error == if definition == null then FILE_VALIDATION_ERROR
                       else if id !in old(byId) then (if definition.implementedInLibintegra then FAILED else SUCCESS)
                       else if old(byId[id].source) == EMBEDDED then SUCCESS
                       else MODULE_ALREADY_INSTALLED
      ensures byId == if error == SUCCESS && id !in old(byId) then old(byId)[id := definition] else old(byId)
      ensures SourcesOf(byId) == if error == SUCCESS then old(SourcesOf(byId))[id := THIRD_PARTY] else old(SourcesOf(byId))
    {
      hide *;
      ValidParts();
      SourcesAt(byId);
      var loaded;
      loaded, id := LoadModule(definition, THIRD_PARTY);
      if loaded {
        return SUCCESS, id;
      }
      if id == NULL_GUID {
        return FILE_VALIDATION_ERROR, id;
      }
      if id !in byId {
        return FAILED, id;
      }
      ValidParts();
      match byId[id].source
      case EMBEDDED =>
        error := ChangeModuleSource(byId[id], THIRD_PARTY);
      case _ =>
        error := MODULE_ALREADY_INSTALLED;
    }

    method InstallEmbeddedModule(id: Guid) returns (error: RegistryError)
      requires Valid()
      modifies byId.Values
      ensures Valid()
      ensures error == if id in byId && old(byId[id].source) == EMBEDDED then SUCCESS else INPUT_ERROR
      ensures SourcesOf(byId) == if error == SUCCESS then old(SourcesOf(byId))[id := THIRD_PARTY] else old(SourcesOf(byId))
    {
      if id !in byId || byId[id].source != EMBEDDED {
        return INPUT_ERROR;
      }
      error := ChangeModuleSource(byId[id], THIRD_PARTY);
    }

    /** Uninstalls a third party module; one with instances stays as an embedded one. */
    method UninstallModule(id: Guid, nodes: seq<Instance>, fileDeleted: bool) returns (error: RegistryError, remains: bool)
      requires Valid()
      modifies this, byId.Values
      ensures Valid()
      ensures error == if id !in old(byId) || old(byId[id].source) != THIRD_PARTY then INPUT_ERROR
                       else if !HasInstance(nodes, id) && !fileDeleted then FILE_ERROR
                       else SUCCESS
      ensures remains <==> error == SUCCESS && HasInstance(nodes, id)
      ensures byId == if error == SUCCESS && !remains then old(byId) - {id} else old(byId)
      ensures SourcesOf(byId) == if remains then old(SourcesOf(byId))[id := EMBEDDED]
                                 else if error == SUCCESS then old(SourcesOf(byId)) - {id}
                                 else old(SourcesOf(byId))
    {
      AgreeAt(ids, byId, byOrigin, byCoreName);
      hide TablesAgree, SourcesFit;
      remains := false;
      if id !in byId || byId[id].source != THIRD_PARTY {
        return INPUT_ERROR, false;
      }
      if IsModuleInUse(nodes, id) {
        error := ChangeModuleSource(byId[id], EMBEDDED);
        return error, true;
      }
      if !fileDeleted {
        return FILE_ERROR, false;
      }
      UnloadModule(byId[id]);
      error := SUCCESS;
    }

    ghost function Now(): Snapshot
      reads this, byId.Values
    {
      Snapshot(byId, SourcesOf(byId))
    }

    lemma NowIs()
      ensures Now() == Snapshot(byId, SourcesOf(byId))
    {
    }

    /** Unloads a module that has no instances, and embeds one that has. */
    method PutAway(definition: InterfaceDefinition, nodes: seq<Instance>) returns (remains: bool)
      requires Valid() && definition.moduleId in byId && byId[definition.moduleId] == definition
      requires definition.source == IN_DEVELOPMENT
      modifies this, definition
      ensures Valid()
      ensures remains <==> HasInstance(nodes, definition.moduleId)
      ensures byId == if remains then old(byId) else old(byId) - {definition.moduleId}
      ensures SourcesOf(byId) == if remains then old(SourcesOf(byId))[definition.moduleId := EMBEDDED]
                                 else old(SourcesOf(byId)) - {definition.moduleId}
      ensures NoneInDevelopment(byId)
    {
      hide TablesAgree;
      AgreeAt(ids, byId, byOrigin, byCoreName);
      remains := IsModuleInUse(nodes, definition.moduleId);
      if remains {
        var error := ChangeModuleSource(definition, EMBEDDED);
      } else {
        UnloadModule(definition);
      }
    }

    /** The modules in the order in which the program goes through them, which is of no importance. */
    method Enumerate() returns (keys: seq<Guid>)
      ensures forall k :: k in keys <==> k in byId
      ensures forall i, j :: 0 <= i < j < |keys| ==> keys[i] != keys[j]
    {
      keys := [];
      var todo := byId.Keys;
      while todo != {}
        invariant todo <= byId.Keys && forall k :: k in keys <==> k in byId && k !in todo
        invariant forall i, j :: 0 <= i < j < |keys| ==> keys[i] != keys[j]
        decreases todo
      {
        var k :| k in todo;
        keys := keys + [k];
        todo := todo - {k};
      }
    }

    /** The module in development is the only one loaded, and has no instance. */
    ghost predicate LeavesNothing(nodes: seq<Instance>)
      reads this, byId.Values
    {
      exists k :: byId.Keys == {k} && byId[k].source == IN_DEVELOPMENT && !HasInstance(nodes, k)
    }

    /** Puts away the module that is in development, if there is one.  After an unload the program starts
        over at the front and steps on from there; with nothing left, that is a step past the end, behind
        which nothing is known of it: `strays` says so. */
    method UnloadModuleInDevelopment(nodes: seq<Instance>)
      returns (error: RegistryError, previous: Guid, remains: bool, strays: bool)
      requires Valid()
      modifies this, byId.Values
      ensures Valid() && error == SUCCESS
      ensures strays <==> old(LeavesNothing(nodes))
      ensures NoneInDevelopment(byId)
      ensures previous == NULL_GUID ==> byId == old(byId) && SourcesOf(byId) == old(SourcesOf(byId))
      ensures previous != NULL_GUID ==> IsPutAway(Now(), old(Now()), previous, remains, nodes)
    {
      hide *;
      error, previous, remains, strays := SUCCESS, NULL_GUID, false, false;
      ghost var sources, before := SourcesOf(byId), Now();
      ghost var nothing := LeavesNothing(nodes);
      NowIs();
      var keys := Enumerate();
      var i := 0;
      while i != |keys|
        invariant Valid() && 0 <= i <= |keys| && error == SUCCESS && !strays
        invariant forall k :: k in keys <==> k in byId
        invariant forall j, k :: 0 <= j < k < |keys| ==> keys[j] != keys[k]
        invariant previous == NULL_GUID ==>
                    && byId == old(byId) && SourcesOf(byId) == sources && nothing == LeavesNothing(nodes)
                    && forall j :: 0 <= j < i ==> byId[keys[j]].source != IN_DEVELOPMENT
        invariant previous != NULL_GUID ==> !nothing && NoneInDevelopment(byId) && IsPutAway(Now(), before, previous, remains, nodes)
        decreases |keys|, |keys| - i
      {
        ValidParts();
        NoneInDevelopmentAt(byId);
        SourcesAt(byId);
        var k := keys[i];
        if byId[k].source == IN_DEVELOPMENT {
          if previous == NULL_GUID {
            LeavesNothingIs(keys, i, nodes);
            previous := k;
            remains := PutAway(byId[k], nodes);
            NowIs();
            MakePutAway(Now(), before, k, remains, nodes);
            if !remains {
              WithoutKey(keys, i);
              keys := keys[..i] + keys[i + 1..];
              i := 0;
              if i == |keys| {
                strays := true;
                return;
              }
            }
          } else {
            error := FAILED;
            return;
          }
        }
        i := i + 1;
      }
      NoneInDevelopmentAt(byId);
      if previous == NULL_GUID {
        NothingLeft(nodes);
      }
    }

    lemma NothingLeft(nodes: seq<Instance>)
      requires NoneInDevelopment(byId)
      ensures !LeavesNothing(nodes)
    {
    }

    lemma LeavesNothingIs(keys: seq<Guid>, i: nat, nodes: seq<Instance>)
      requires i < |keys| && forall k :: k in keys <==> k in byId
      requires forall j, k :: 0 <= j < k < |keys| ==> keys[j] != keys[k]
      requires byId[keys[i]].source == IN_DEVELOPMENT
      ensures LeavesNothing(nodes) <==> |keys| == 1 && !HasInstance(nodes, keys[i])
    {
      hide HasInstance;
      var only := keys[i];
      assert only in byId.Keys;
      if |keys| == 1 {
        assert byId.Keys == {only};
        forall k | byId.Keys == {k} ensures k == only {
          assert only in {k};
        }
      } else {
        var other := keys[if i == 0 then 1 else 0];
        assert other in byId.Keys && other != only;
        forall k ensures byId.Keys != {k} {
          assert byId.Keys == {k} ==> only in {k} && other in {k};
        }
      }
    }

    /** The one module in development, without an instance: the program steps past the end of an empty map. */
    method StraysWithNothingLeft(only: InterfaceDefinition) returns (strays: bool)
      requires Valid() && byId == map[only.moduleId := only] && only.source == IN_DEVELOPMENT
      modifies this, byId.Values
      ensures strays && byId == map[]
    {
      AgreeAt(ids, byId, byOrigin, byCoreName);
      assert byId.Keys == {only.moduleId} && byId[only.moduleId] == only;
      assert !HasInstance([], only.moduleId);
      assert LeavesNothing([]);
      var error, previous, remains;
      error, previous, remains, strays := UnloadModuleInDevelopment([]);
      assert map[only.moduleId := only] - {only.moduleId} == map[];
    }

    lemma ValidParts()
      requires Valid()
      ensures forall id :: id in byId ==> byId[id].moduleId == id && id != NULL_GUID
      ensures NULL_GUID !in byId
    {
      AgreeAt(ids, byId, byOrigin, byCoreName);
    }

    /** A module that is unloaded to make way for the next one in development. */
    ghost predicate GivesWay(k: Guid, nodes: seq<Instance>)
      reads this, byId.Values
    {
      k in byId && byId[k].source == IN_DEVELOPMENT && !HasInstance(nodes, k)
    }

    lemma BeforeUnloading(nodes: seq<Instance>)
      requires Valid()
      ensures Now() == Snapshot(byId, SourcesOf(byId)) && AtMostOneInDevelopment(Now())
      ensures Now().byId.Keys == Now().sources.Keys
      ensures forall k :: k in byId ==> Now().sources[k] == byId[k].source
      ensures forall k :: GivesWay(k, nodes) <==> k in byId && byId[k].source == IN_DEVELOPMENT && !HasInstance(nodes, k)
    {
    }

    /** Of the modules, exactly the one in development has gone or has changed its source. */
    lemma AfterUnloading(before: Snapshot, previous: Guid, remains: bool, nodes: seq<Instance>)
      requires NoneInDevelopment(byId) && AtMostOneInDevelopment(before) && before.byId.Keys == before.sources.Keys
      requires previous == NULL_GUID ==> Snapshot(byId, SourcesOf(byId)) == before
      requires previous != NULL_GUID ==> IsPutAway(Now(), before, previous, remains, nodes)
      ensures forall k :: k in byId ==> byId[k].source != IN_DEVELOPMENT
      ensures forall k :: k in byId ==> k in before.byId && byId[k] == before.byId[k]
      ensures forall k :: k in before.byId ==>
                (k !in byId <==> before.sources[k] == IN_DEVELOPMENT && !HasInstance(nodes, k))
      ensures forall k :: k in byId ==>
                byId[k].source == if before.sources[k] == IN_DEVELOPMENT then EMBEDDED else before.sources[k]
    {
      SourcesAt(byId);
      NoneInDevelopmentAt(byId);
      hide HasInstance;
    }

    /** Loads a module under development in place of the one loaded before, unless the program strays. */
    method LoadModuleInDevelopment(definition: InterfaceDefinition?, nodes: seq<Instance>)
      returns (error: RegistryError, id: Guid, strays: bool)
      requires Valid() && (definition != null ==> definition.moduleId != NULL_GUID && definition !in byId.Values)
      modifies this, byId.Values, definition
      ensures Valid()
      ensures strays <==> old(LeavesNothing(nodes))
      ensures !strays ==> id == if definition == null then NULL_GUID else definition.moduleId
      ensures !strays ==>
                error == if definition == null then FILE_VALIDATION_ERROR
                         else if definition.implementedInLibintegra || (id in old(byId) && !old(GivesWay(id, nodes))) then MODULE_ALREADY_INSTALLED
                         else SUCCESS
      ensures forall k :: k in old(byId) && !old(GivesWay(k, nodes)) ==>
                && k in byId && byId[k] == old(byId)[k]
                && byId[k].source == if old(byId[k].source) == IN_DEVELOPMENT then EMBEDDED else old(byId[k].source)
      ensures forall k :: k in byId && !(k in old(byId) && !old(GivesWay(k, nodes))) ==> !strays && error == SUCCESS && k == id
      ensures !strays && error == SUCCESS ==> id in byId && byId[id] == definition && definition.source == IN_DEVELOPMENT
    {
      hide *;
      ghost var before := Now();
      BeforeUnloading(nodes);
      var previous, remains;
      error, previous, remains, strays := UnloadModuleInDevelopment(nodes);
      AfterUnloading(before, previous, remains, nodes);
      if strays {
        return FAILED, NULL_GUID, true;
      }
      assert forall k :: k in before.byId && !old(GivesWay(k, nodes)) ==> k in byId && byId[k] == before.byId[k];
      assert definition != null ==> definition !in byId.Values;
      var loaded;
      loaded, id := LoadModule(definition, IN_DEVELOPMENT);
      if loaded {
        error := SUCCESS;
      } else if id == NULL_GUID {
        error := FILE_VALIDATION_ERROR;
      } else {
        error := MODULE_ALREADY_INSTALLED;
      }
    }

    method UnloadModules(moduleIds: set<Guid>)
      requires Valid() && moduleIds <= byId.Keys
      modifies this
      ensures Valid() && byId == old(byId) - moduleIds
    {
      var todo := moduleIds;
      while todo != {}
        invariant Valid() && todo <= moduleIds && byId == old(byId) - (moduleIds - todo)
        decreases todo
      {
        var k :| k in todo;
        AgreeAt(ids, byId, byOrigin, byCoreName);
        UnloadModule(byId[k]);
        todo := todo - {k};
      }
    }

    /** Unloads the embedded modules without instances, and no others. */
    method UnloadUnusedEmbeddedModules(nodes: seq<Instance>)
      requires Valid()
      modifies this
      ensures Valid()
      ensures byId == old(byId) - old(set k | k in byId && byId[k].source == EMBEDDED && !HasInstance(nodes, k))
    {
      var moduleIds := set k | k in byId && byId[k].source == EMBEDDED;
      moduleIds := RemoveInUse(nodes, moduleIds);
      UnloadModules(moduleIds);
    }

    method UnloadAllModules()
      requires Valid()
      modifies this
      ensures Valid() && ids == {} && byId == map[] && byOrigin == map[] && byCoreName == map[]
    {
      AgreeAt(ids, byId, byOrigin, byCoreName);
      UnloadModules(ids);
      AgreeAt(ids, byId, byOrigin, byCoreName);
    }

    /** After the first module of an origin has gone, one that came later with the same origin is loaded
        but not found by it. */
    method ForgetsOrigin(first: InterfaceDefinition, second: InterfaceDefinition)
      requires Valid() && byId == map[] && first != second && first.originId == second.originId
      requires first.moduleId != NULL_GUID && second.moduleId != NULL_GUID && first.moduleId != second.moduleId
      requires !first.implementedInLibintegra && !second.implementedInLibintegra
      modifies this, first, second
      ensures Valid() && second.moduleId in byId && byId[second.moduleId] == second && second.originId !in byOrigin
    {
      hide *;
      ValidParts();
      NothingFiled();
      var loaded, id := LoadModule(first, THIRD_PARTY);
      loaded, id := LoadModule(second, THIRD_PARTY);
      UnloadModule(first);
      FirstForgotten(first.originId, first, second);
    }

    lemma NothingFiled()
      requires Valid() && byId == map[]
      ensures byOrigin == map[] && byCoreName == map[]
    {
      AgreeAt(ids, byId, byOrigin, byCoreName);
    }
  }
}
