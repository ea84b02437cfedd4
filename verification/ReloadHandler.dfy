/** The reload handler run by itself, over the fields of the application state. */
module ReloadHandler {
  import opened Wrappers
  import opened StoreChanges

  /** A loaded configuration; `id` stands for everything but its stores. */
  datatype AppConfig = AppConfig(id: nat, stores: Configs)

  /** How the steps outside this model turn out. */
  datatype Outcomes = Outcomes(loaded: Option<AppConfig>, poolsCreated: bool, migrated: bool, mediaAdded: bool,
                               registryBuilt: bool)

  datatype Failure = LoadFailed | PoolsFailed | MigrationFailed | MediaFailed | StoreFailed(name: string) | RegistryFailed

  /** The reload gets as far as the swap. */
  ghost predicate ReachesSwap(o: Outcomes, before: Configs, broken: set<string>) {
    o.loaded.Some? && o.poolsCreated && o.migrated && o.mediaAdded && Renewed(before, o.loaded.value.stores) !! broken
  }

  /** Pools were made for a reload that then failed to prepare its databases. */
  ghost predicate PreparesInVain(o: Outcomes) {
    o.loaded.Some? && o.poolsCreated && !(o.migrated && o.mediaAdded)
  }

  class AppState {
    var config: AppConfig
    var pools: nat
    var storeConfigs: Configs
    var registry: AppConfig
    /** Shared by reference with every request; a handler that assigns it replaces only its own reference. */
    const stores: Stores
    var poolsMade: nat
    var closed: multiset<nat>

    constructor (config: AppConfig, stores: Stores)
      ensures this.config == config && this.registry == config && this.storeConfigs == config.stores
      ensures this.stores == stores && pools == 0 && poolsMade == 1 && closed == multiset{}
    {
      this.config, registry, storeConfigs := config, config, config.stores;
      this.stores := stores;
      pools, poolsMade, closed := 0, 1, multiset{};
    }

    /** The map of stores it returns is the handler's own and is dropped with it. */
    method HandleReload(o: Outcomes, factory: StoreFactory) returns (r: Result<Stores, Failure>)
      modifies this, factory
      ensures r.Ok? <==> ReachesSwap(o, old(storeConfigs), factory.broken) && o.registryBuilt
      ensures r.Ok? ==> Rebuilt(stores, old(storeConfigs), config.stores, old(factory.next), r.value)
      // up to the swap nothing shared changes, past it everything is of the new configuration
      ensures !ReachesSwap(o, old(storeConfigs), factory.broken) ==>
                config == old(config) && pools == old(pools) && storeConfigs == old(storeConfigs) && registry == old(registry)
      ensures ReachesSwap(o, old(storeConfigs), factory.broken) ==>
                config == o.loaded.value && pools == old(poolsMade) && storeConfigs == o.loaded.value.stores
      ensures ReachesSwap(o, old(storeConfigs), factory.broken) ==>
                registry == if o.registryBuilt then config else old(registry)
      // one of the two pool sets is closed, unless a store or the registry failed
      ensures closed == old(closed)
                        + (if r.Ok? then multiset{old(pools)} else multiset{})
                        + (if PreparesInVain(o) then multiset{old(poolsMade)} else multiset{})
      ensures poolsMade == old(poolsMade) + if o.loaded.Some? && o.poolsCreated then 1 else 0
    {
      if o.loaded.None? {
        return Err(LoadFailed);
      }
      var newConfig := o.loaded.value;
      if !o.poolsCreated {
        return Err(PoolsFailed);
      }
      var newPools := poolsMade;
      poolsMade := poolsMade + 1;
      if !o.migrated {
        closed := closed + multiset{newPools};
        return Err(MigrationFailed);
      }
      if !o.mediaAdded {
        closed := closed + multiset{newPools};
        return Err(MediaFailed);
      }
      var newStores := RebuildStores(stores, storeConfigs, newConfig.stores, factory);
      if newStores.Err? {
        return Err(StoreFailed(newStores.error));
      }
      var oldPools := pools;
      pools := newPools;
      config := newConfig;
      storeConfigs := newConfig.stores;
      if !o.registryBuilt {
        return Err(RegistryFailed);
      }
      registry := config;
      closed := closed + multiset{oldPools};
      r := Ok(newStores.value);
    }
  }
}
