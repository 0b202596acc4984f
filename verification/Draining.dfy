/**
 The handler object itself. `model` follows it through DrainingModel, so that each method is
 one of the steps whose interleavings DrainingTheorems covers.
 */
module Draining {
  import opened DrainingModel
  import opened DrainingTheorems

  class Connection {
    ghost const owner: DrainingRequest
    var closes: nat

    constructor (ghost owner: DrainingRequest)
      ensures this.owner == owner && closes == 0
    {
      this.owner := owner;
      closes := 0;
    }

    method Close()
      modifies this
      ensures closes == old(closes) + 1
    {
      closes := closes + 1;
    }
  }

  class DrainingRequest {
    var cancelled: bool
    var conn: Connection?

    constructor ()
      ensures !cancelled && conn == null
    {
      cancelled, conn := false, null;
    }
  }

  class DrainingHandler {
    var active: set<DrainingRequest>
    var stopped: bool
    var doneClosed: bool
    ghost var model: Handler<DrainingRequest>

    ghost predicate Valid()
      reads this, active, model.toClose
    {
      && Sound(model)
      && active == model.active && stopped == model.stopped && doneClosed == (model.closes > 0)
      && (forall r :: r in active ==> (r.conn != null <==> r in model.hijacked) && (r.conn != null ==> r.conn.owner == r))
      && (forall r :: r in model.toClose ==> r.conn != null && r.conn.owner == r)
    }

    constructor ()
      ensures Valid() && model == Fresh()
    {
      active, stopped, doneClosed, model := {}, false, false, Fresh();
    }

    /** The opening section of ServeHTTP: null means the request was turned away. */
    method Admit() returns (request: DrainingRequest?)
      requires Valid()
      modifies this
      ensures Valid() && (request == null <==> old(stopped))
      ensures request == null ==> model == old(model)
      ensures request != null ==> fresh(request) && Enabled(old(model), Serve(request)) && model == Served(old(model), request)
    {
      if stopped {
        return null;
      }
      request := new DrainingRequest();
      active := active + {request};
      model := Served(model, request);
    }

    /** The deferred section of ServeHTTP. Closing `done` here never closes it a second time. */
    method Leave(request: DrainingRequest)
      requires Valid() && request in active
      modifies this, request
      ensures Valid() && model == Finished(old(model), request)
    {
      request.cancelled := true;
      active := active - {request};
      model := Finished(model, request);
      if stopped && active == {} {
        assert !doneClosed;
        doneClosed := true;
      }
    }

    /** The critical section of `stop`; `hijacked` are the requests whose connections it then closes. */
    method BeginStop() returns (hijacked: set<DrainingRequest>)
      requires Valid()
      modifies this
      ensures Valid() && model == Stopped(old(model)) && active == old(active)
      ensures hijacked == if old(stopped) then {} else model.toClose
    {
      if stopped {
        return {};
      }
      stopped := true;
      if active == {} {
        assert !doneClosed;
        doneClosed := true;
      }
      hijacked := set r | r in active && r.conn != null;
      model := Stopped(model);
    }

    /** One closing of a running `stop`, outside the lock: other requests may have come and gone since its critical section. */
    method CloseHijacked(request: DrainingRequest)
      requires Valid() && request in model.toClose
      modifies this`model, request`cancelled, request.conn
      ensures Valid() && model == Next(old(model), StopCloses(request))
      ensures request.cancelled && request.conn.closes == old(request.conn.closes) + 1
    {
      request.cancelled := true;
      request.conn.Close();
      model := Next(model, StopCloses(request));
    }

    /** A `stop` that runs without other steps in between: the connections held by active requests are closed, once each. */
    method StopAll()
      requires Valid()
      modifies this, active, set r | r in active && r.conn != null :: r.conn
      ensures Valid() && stopped && active == old(active)
      ensures forall r :: r in active && r.conn != null ==>
                            r.conn == old(r.conn) && r.conn.closes == old(r.conn.closes) + (if old(stopped) then 0 else 1)
    {
      var hijacked := BeginStop();
      var left := hijacked;
      while left != {}
        invariant left <= hijacked <= active && left <= model.toClose
        invariant Valid() && stopped && active == old(active)
        invariant forall r :: r in active ==> r.conn == old(r.conn)
        invariant forall r :: r in active && r.conn != null ==>
                                r.conn.closes == old(r.conn.closes) + (if r in hijacked - left then 1 else 0)
        decreases left
      {
        var request :| request in left;
        CloseHijacked(request);
        left := left - {request};
      }
    }

    /** `Hijack` once the server has handed over the connection: closed here if the stop came first. */
    method TakeOver(request: DrainingRequest, conn: Connection)
      requires Valid() && request in active && request.conn == null && conn.owner == request && conn.closes == 0
      modifies this`model, request, conn
      ensures Valid() && request.conn == conn
      ensures conn.closes == if stopped then 1 else 0
      ensures stopped ==> request.cancelled && model == Next(Hijacked(old(model), request), HijackCloses(request))
      ensures !stopped ==> model == Hijacked(old(model), request)
    {
      request.conn := conn;
      model := Hijacked(model, request);
      if stopped {
        request.cancelled := true;
        conn.Close();
        model := Next(model, HijackCloses(request));
      }
    }
  }
}
