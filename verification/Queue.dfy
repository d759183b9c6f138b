/** Named FIFO queues: jobs that share a queue name run one after the other.
    Models base/pm/queue.go. A send on the channel is an `Offer` that the caller is left with. */
module Queues {

  /** `uid` stands for the identity of the job object; ids can be used again, identities cannot. */
  datatype Job = Job(uid: nat, id: string, queue: string)

  datatype Offer = Nothing | Send(job: Job)

  type Lists = map<string, seq<Job>>

  function PushLists(lists: Lists, job: Job): Lists {
    if job.queue == "" then lists
    else lists[job.queue := (if job.queue in lists then lists[job.queue] else []) + [job]]
  }

  function PushOffer(lists: Lists, job: Job): Offer {
    if job.queue == "" || job.queue !in lists then Send(job) else Nothing
  }

  function NotifyLists(lists: Lists, name: string): Lists {
    if name !in lists then lists
    else if |lists[name]| <= 1 then lists - {name}
    else lists[name := lists[name][1..]]
  }

  function NotifyOffer(lists: Lists, name: string): Offer {
    if name in lists && |lists[name]| > 1 then Send(lists[name][1]) else Nothing
  }

  class Queue {
    var queues: Lists
    var closed: bool

    ghost predicate Valid()
      reads this
    {
      forall name :: name in queues ==> queues[name] != []
    }

    constructor ()
      ensures Valid() && queues == map[] && !closed
    {
      queues, closed := map[], false;
    }

    /** Closing twice panics: the channel is closed already. */
    method Close() returns (panics: bool)
      modifies this`closed
      ensures closed && panics == old(closed)
    {
      panics := closed;
      closed := true;
    }

    /** Unnamed jobs go straight to the channel; of a named queue only a job that finds it empty. */
    method Push(job: Job) returns (ok: bool, offer: Offer)
      requires Valid()
      modifies this`queues
      ensures Valid() && ok == !closed
      ensures ok ==> queues == PushLists(old(queues), job) && offer == PushOffer(old(queues), job)
      ensures !ok ==> queues == old(queues) && offer == Nothing
    {
      if closed {
        return false, Nothing;
      }
      if job.queue == "" {
        return true, Send(job);
      }
      if job.queue !in queues {
        queues := queues[job.queue := []];
      }
      queues := queues[job.queue := queues[job.queue] + [job]];
      if |queues[job.queue]| == 1 {
        return true, Send(job);
      }
      return true, Nothing;
    }

    /** Drops the front of the job's queue and hands the next one to the channel. */
    method Notify(job: Job) returns (offer: Offer)
      requires Valid()
      modifies this`queues
      ensures Valid()
      ensures !closed ==>
        queues == NotifyLists(old(queues), job.queue) && offer == NotifyOffer(old(queues), job.queue)
      ensures closed ==> queues == old(queues) && offer == Nothing
    {
      if closed || job.queue !in queues {
        return Nothing;
      }
      queues := queues[job.queue := queues[job.queue][1..]];
      if queues[job.queue] == [] {
        queues := queues - {job.queue};
        return Nothing;
      }
      return Send(queues[job.queue][0]);
    }
  }
}
