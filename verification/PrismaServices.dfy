/** The two Prisma services of one request, and the CLS store they share. */
module PrismaServices {
  import opened Wrappers
  import opened Transactions

  class Prisma {
    const sharedMetaDataDatabase: bool

    // `tx.client` and `dataTx.client` in the store of the request
    var txClient: Option<Client>
    var dataTxClient: Option<Client>

    // the services with an `afterTxCb`
    var afterTxCb: set<Service>

    // the database's side: transactions are numbered as they open
    var next: nat

    ghost var trace: seq<Event>

    // The store holds the transactions of `env`, each service's own.
    ghost predicate Holds(env: Env)
      reads this
    {
      && txClient == (if env.meta.Some? then Some(InTx(Meta, env.meta.value)) else None)
      && dataTxClient == (if env.data.Some? then Some(InTx(Data, env.data.value)) else None)
    }

    // What has happened since `before`: the program's meaning, and nothing else.
    ghost predicate Did(outcome: Outcome, finished: bool, before: seq<Event>)
      reads this
    {
      && finished == outcome.finishes
      && next == outcome.next
      && afterTxCb == outcome.bound
      && trace == before + outcome.events
    }

    constructor (shared: bool)
      ensures sharedMetaDataDatabase == shared
      ensures Holds(OUTSIDE) && next == 0 && afterTxCb == {} && trace == []
    {
      sharedMetaDataDatabase := shared;
      txClient, dataTxClient, afterTxCb, next, trace := None, None, {}, 0, [];
    }

    method BindAfterTransaction(service: Service)
      modifies `afterTxCb, `trace
      ensures afterTxCb == old(afterTxCb) + {service} && trace == old(trace) + [Bound(service)]
    {
      afterTxCb := afterTxCb + {service};
      trace := trace + [Bound(service)];
    }

    // `txClient()` of the meta service.
    method MetaTxClient(ghost env: Env) returns (client: Client)
      requires Holds(env)
      ensures client == ClientFor(sharedMetaDataDatabase, env, Meta)
    {
      client := if txClient.None? then Base(Meta) else txClient.value;
    }

    method GetMetaTxClient(ghost env: Env) returns (client: Option<Client>)
      requires Holds(env)
      ensures client == if sharedMetaDataDatabase then Ambient(sharedMetaDataDatabase, env, Meta) else None
    {
      client := if !sharedMetaDataDatabase then None else txClient;
    }

    // `txClient()` of the data service.
    method DataTxClient(ghost env: Env) returns (client: Client)
      requires Holds(env)
      ensures client == ClientFor(sharedMetaDataDatabase, env, Data)
    {
      if dataTxClient.Some? {
        return dataTxClient.value;
      }
      var metaTxClient := GetMetaTxClient(env);
      client := if metaTxClient.Some? then metaTxClient.value else Base(Data);
    }

    // `$tx` of the meta service; `finishes` is false when it throws. `env` is what the enclosing transactions are.
    method MetaTx(fn: Prog, fate: Fate, ghost env: Env) returns (finishes: bool)
      requires Holds(env)
      modifies `txClient, `dataTxClient, `afterTxCb, `next, `trace
      ensures Holds(env)
      ensures Did(Meaning(sharedMetaDataDatabase, Tx(Meta, fn, fate), env, old(next), old(afterTxCb)),
                  finishes, old(trace))
      decreases fn, 2
    {
      if txClient.Some? {
        trace := trace + [Entered(Meta, txClient.value)];
        finishes := Execute(fn, env);
        return;
      }
      if !fate.opens {
        trace := trace + [OpenFailed(Meta)];
        return false;
      }
      finishes := InMetaTx(fn, fate, env);
    }

    // The call of `$transaction`, once the transaction has opened.
    method InMetaTx(fn: Prog, fate: Fate, ghost env: Env) returns (finishes: bool)
      requires Holds(env) && Ambient(sharedMetaDataDatabase, env, Meta).None? && fate.opens
      modifies `txClient, `dataTxClient, `afterTxCb, `next, `trace
      ensures Holds(env)
      ensures Did(Meaning(sharedMetaDataDatabase, Tx(Meta, fn, fate), env, old(next), old(afterTxCb)),
                  finishes, old(trace))
      decreases fn, 1
    {
      var id := next;
      next := next + 1;
      trace := trace + [Opened(Meta, id)];
      txClient := Some(InTx(Meta, id));
      trace := trace + [Entered(Meta, txClient.value)];
      finishes := Execute(fn, Inside(env, Meta, id));
      txClient := None;
      ghost var inner := Meaning(sharedMetaDataDatabase, fn, Inside(env, Meta, id), id + 1, old(afterTxCb));
      inner := AfterEvents([Opened(Meta, id), Entered(Meta, InTx(Meta, id))], inner);
      finishes := Finish(Meta, id, fate, finishes, inner, old(trace));
    }

    // `$tx` of the data service.
    method DataTx(fn: Prog, fate: Fate, ghost env: Env) returns (finishes: bool)
      requires Holds(env)
      modifies `txClient, `dataTxClient, `afterTxCb, `next, `trace
      ensures Holds(env)
      ensures Did(Meaning(sharedMetaDataDatabase, Tx(Data, fn, fate), env, old(next), old(afterTxCb)),
                  finishes, old(trace))
      decreases fn, 2
    {
      if dataTxClient.Some? {
        trace := trace + [Entered(Data, dataTxClient.value)];
        finishes := Execute(fn, env);
        return;
      }
      var metaTxClient := GetMetaTxClient(env);
      if metaTxClient.Some? {
        trace := trace + [Entered(Data, metaTxClient.value)];
        finishes := Execute(fn, env);
        return;
      }
      if !fate.opens {
        trace := trace + [OpenFailed(Data)];
        return false;
      }
      finishes := InDataTx(fn, fate, env);
    }

    // The call of `$transaction`, once the transaction has opened.
    method InDataTx(fn: Prog, fate: Fate, ghost env: Env) returns (finishes: bool)
      requires Holds(env) && Ambient(sharedMetaDataDatabase, env, Data).None? && fate.opens
      modifies `txClient, `dataTxClient, `afterTxCb, `next, `trace
      ensures Holds(env)
      ensures Did(Meaning(sharedMetaDataDatabase, Tx(Data, fn, fate), env, old(next), old(afterTxCb)),
                  finishes, old(trace))
      decreases fn, 1
    {
      var id := next;
      next := next + 1;
      trace := trace + [Opened(Data, id)];
      dataTxClient := Some(InTx(Data, id));
      trace := trace + [Entered(Data, dataTxClient.value)];
      finishes := Execute(fn, Inside(env, Data, id));
      dataTxClient := None;
      ghost var inner := Meaning(sharedMetaDataDatabase, fn, Inside(env, Data, id), id + 1, old(afterTxCb));
      inner := AfterEvents([Opened(Data, id), Entered(Data, InTx(Data, id))], inner);
      finishes := Finish(Data, id, fate, finishes, inner, old(trace));
    }

    // The end of `$transaction`, once `fn` is over and the store is cleared: roll back and rethrow, or commit and call
    // back.
    method Finish(service: Service, id: nat, fate: Fate, returned: bool, ghost inner: Outcome, ghost before: seq<Event>)
      returns (finishes: bool)
      requires Did(inner, returned, before)
      modifies `trace
      ensures Did(Finished(service, id, fate, inner), finishes, before)
    {
      if !returned {
        trace := trace + [RolledBack(service, id)];
        return false;
      }
      if !fate.commits {
        trace := trace + [CommitFailed(service, id)];
        return false;
      }
      trace := trace + [Committed(service, id)];
      finishes := true;
      if service in afterTxCb {
        finishes := fate.callbackReturns;
        trace := trace + [if finishes then CallbackRan(service, id) else CallbackThrew(service, id)];
      }
    }

    /** Runs a request. Whatever it nests and wherever it throws, what happens is what the enclosing transactions say,
      * and the store is afterwards as it was. */
    method Execute(p: Prog, ghost env: Env) returns (finishes: bool)
      requires Holds(env)
      modifies `txClient, `dataTxClient, `afterTxCb, `next, `trace
      ensures Holds(env)
      ensures Did(Meaning(sharedMetaDataDatabase, p, env, old(next), old(afterTxCb)), finishes, old(trace))
      decreases p, 0
    {
      finishes := true;
      match p
      case Use(service) =>
        var client;
        if service == Meta {
          client := MetaTxClient(env);
        } else {
          client := DataTxClient(env);
        }
        trace := trace + [Used(service, client)];
      case Bind(service) =>
        BindAfterTransaction(service);
      case Throw =>
        trace := trace + [Threw];
        finishes := false;
      case Then(first, second) =>
        finishes := Execute(first, env);
        if finishes {
          finishes := Execute(second, env);
        }
      case Try(body, handler) =>
        finishes := Execute(body, env);
        if !finishes {
          trace := trace + [Caught];
          finishes := Execute(handler, env);
        }
      case Tx(service, fn, fate) =>
        if service == Meta {
          finishes := MetaTx(fn, fate, env);
        } else {
          finishes := DataTx(fn, fate, env);
        }
    }
  }
}
