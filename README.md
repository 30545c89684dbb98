# hello: a Linux kernel module, modelled in Dafny

`hello.c` is a small Linux kernel module. It has one parameter, `hello_count`,
an unsigned int that defaults to 1. When the module is loaded, `hello_init`
checks the parameter, allocates that many `struct hello_item` records, stamps
each with `ktime_get()`, appends it to the global list `hello_list` and prints a
progress line. When it is unloaded, `hello_exit` drains the list with
`free_hello_list`, printing each record's timestamp and freeing the record.
If `kmalloc` fails in the middle of loading, `hello_init` drains what it has
built so far and returns `-ENOMEM`.

The project has two modules:

- `HelloSpec` (`hello_spec.dfy`) holds the values and the meaning of each
  routine:
  - the records (`Item`) and the printed lines (`Notice`, with their printk
    level);
  - the whole module state as a `ModuleState` value: the list, the log, the next
    object identity, and the histories of allocated and freed identities;
  - one function per routine: `AfterFree`, `AfterInit` (with `AfterLoop` for
    its allocation loop) and `AfterExit`, each in closed form, with one-step
    functions (`AfterFreeHead`, `AfterAlloc`) for single loop iterations;
  - the lemmas that state what the routines promise.
- `Hello` (`hello.dfy`) holds the module as the kernel runs it. Class
  `HelloModule` has `hello_list` and the log as fields. `FreeHelloList`,
  `HelloInit` (with its allocation loop in `AllocateItems`) and `HelloExit`
  are methods with loops that change those fields in place. Each method's
  postcondition equates the new state with the matching `HelloSpec` function
  applied to the old state. Each method also
  keeps `Consistent`: every record ever allocated has either been freed or is
  still on the list, never both and never twice.

Two things outside the module become parameters:

- `kmalloc` is an oracle. `failAt == Some(i)` means the allocation in loop
  iteration `i` (0-based) returns NULL; `None` means every allocation
  succeeds. The loop stops at its first failed allocation, so this one index
  covers every failure pattern.
- `ktime_get` in iteration `i` returns `clock(i)`. Nothing is assumed about
  these values, not even that they increase.

Each record carries an `id` that stands for the pointer `kmalloc` returned.
Every successful allocation gets a new one. With these ids, "freed exactly
once" becomes a checkable statement: the sequence of freed ids equals the
sequence of allocated ids, and it has no repeats.

The model's `hello_init` also accepts a list that is not empty. In the
kernel, `hello_init` always starts from the empty `LIST_HEAD` (hello.c:53),
and the lifecycle lemmas start from that state (`Empty()`). The code never
checks that the list is empty, though. So the general case is modelled as
written: a failed load drains whatever is on the list.

## Model

| member | source | states |
|---|---|---|
| `HelloSpec.Notice.Level` | hello.c:59-106 | the printk level of each line: pr_err exactly for the refusal above 10, pr_warn exactly for the two warnings (hello_count 0, and 5..10), pr_info for the rest |
| `HelloSpec.FreeNotices` | hello.c:59-61 | the lines the drain prints: one per record (`FreeNoticesAt` gives the i-th, with the i-th record's timestamp) |
| `HelloSpec.ProgressNotices` | hello.c:95 | the progress lines of the first n iterations: exactly n of them (`ProgressNoticesAt` gives the i-th as i+1 of hello_count) |
| `HelloSpec.NewItems` | hello.c:88-94 | the records the first n iterations allocate and stamp: exactly n of them (`NewItemsAt` gives the i-th as identity id0+i stamped clock(i)) |
| `HelloSpec.AllocSucceeds` | hello.c:88-89 | the kmalloc oracle: without a failure index every allocation succeeds; an allocation fails only in the one iteration failAt names |
| `HelloSpec.Empty` | hello.c:53 | the state before hello_init: LIST_HEAD(hello_list) is empty, nothing is printed, nothing allocated; it is Consistent |
| `HelloSpec.Consistent` | hello.c:55-107 | the invariant every routine keeps: the allocation history is the free history followed by the identities on the list, with no repeats and every identity below the next one to hand out; hence as many records allocated as freed plus listed |
| `HelloSpec.Advisory` | hello.c:82-85 | the warning printed before the loop: one line exactly when hello_count >= 5, none otherwise |
| `HelloSpec.AfterAlloc` | hello.c:88-95 | one successful iteration: a record with the next identity (stamped clock(i)) is appended at the tail, one progress line is printed, nothing is freed |
| `HelloSpec.AfterPopulate` | hello.c:87-96 | n successful iterations in closed form: the list grows by n records at the tail, the log by n progress lines, nextId by n; nothing is freed |
| `HelloSpec.AfterFreeHead` | hello.c:59-64 | one iteration of the drain: the head record leaves the list, one Freeing line is printed, one record is freed, no allocation |
| `HelloSpec.AfterFree` | hello.c:55-65 | free_hello_list in closed form: the list ends empty, one Freeing line per record and one free per record; the allocation history is unchanged |
| `HelloSpec.AfterInit` | hello.c:67-100 | hello_init: the return code is 0, -EINVAL or -ENOMEM; -EINVAL leaves the list as it was; -ENOMEM leaves it empty |
| `HelloSpec.AfterLoop` | hello.c:87-99 | hello_init's loop and what follows it: the return code is 0 or -ENOMEM; -ENOMEM leaves the list empty; 0 means hello_count records were appended |
| `HelloSpec.AfterExit` | hello.c:102-107 | hello_exit: the list ends empty; the log grows by one Freeing line per record plus the start and end notices, which come first and last |
| `HelloSpec.InitNotices` | hello.c:72-98 | the lines hello_init prints: one line when it refuses; otherwise the warning (if any), one progress line per success, then one Freeing line per drained record on failure or the one success line |
| `HelloSpec.LoadUnload` | hello.c:109-110 | the host's lifecycle: hello_init from the empty state, then hello_exit only if it returned 0; the list always ends empty |
| `HelloSpec.Appended` | hello.c:87-96 | the number of records hello_init appends: at most hello_count and at most 10 |
| `HelloSpec.ParamOrDefault` | hello.c:44-45 | hello_count is the value given at load time, or 1 if none was given |
| `HelloSpec.Validate` | hello.c:72-85 | first match wins, flattened to disjoint ranges: 0 means nothing to do; above 10 is refused; 5..10 proceeds with a warning; 1..4 proceeds silently (each an if-and-only-if) |
| `HelloSpec.Successes` | hello.c:87-92 | the number of records the loop appends is at most hello_count; every allocation before it succeeded; if it is below hello_count, the next allocation is the one that failed |
| `HelloSpec.FreeNoticesAt` | hello.c:59-61 | the i-th Freeing notice of a drain carries the timestamp of the i-th record from the head |
| `HelloSpec.ProgressNoticesAt` | hello.c:95 | the i-th progress notice is "i+1 of hello_count", so the indices run 1, 2, …, n in increasing order |
| `HelloSpec.NewItemsAt` | hello.c:88-94 | the record of iteration i has identity id0+i and timestamp clock(i), so the records appear in allocation order |
| `HelloSpec.NewIdsFresh` | hello.c:88 | records from consecutive allocations have consecutive identities, so no two are the same |
| `HelloSpec.FreeStep` | hello.c:59-64 | one iteration of the drain (log the head record's timestamp, unlink it, free it) followed by the drain of the rest has the same effect as the drain of the whole list: an empty list, one Freeing notice per record head to tail, each record freed once in that order |
| `HelloSpec.FreePreservesConsistent` | hello.c:55-65 | after the drain, every allocated record has been freed exactly once or is still listed |
| `HelloSpec.PopulateStep` | hello.c:87-96 | n+1 successful iterations are n of them followed by one more; together with the definition this says that n iterations append n new records at the tail in allocation order, print progress 1..n and allocate exactly those records |
| `HelloSpec.AllocPreservesConsistent` | hello.c:88-95 | one allocate-and-append step keeps every record either freed once or listed once |
| `HelloSpec.PopulatePreservesConsistent` | hello.c:87-96 | the population loop keeps every record either freed once or listed once |
| `HelloSpec.InitReturnCodes` | hello.c:72-99 | hello_init returns 0 if and only if count is 0, or count is at most 10 and every allocation succeeded; -EINVAL if and only if count > 10; -ENOMEM if and only if 1 <= count <= 10 and an allocation failed |
| `HelloSpec.InitRefuses` | hello.c:72-80 | count 0 returns 0 after exactly one warning; count above 10 returns -EINVAL after exactly one error; neither allocates or touches the list |
| `HelloSpec.InitSucceeds` | hello.c:82-99 | when every allocation succeeds: return 0; the list gains exactly count records, in allocation order; the log gains the warning (5..10 only), progress 1..count and the success notice, in that order; nothing is freed |
| `HelloSpec.InitRollsBack` | hello.c:87-92 | when allocation k+1 fails: return -ENOMEM; the log gains the warning (if any), progress 1..k and one Freeing notice per listed record; the list ends empty; every listed record is freed once, in list order; no success notice |
| `HelloSpec.InitLog` | hello.c:67-100 | everything hello_init prints, in order, is exactly InitNotices |
| `HelloSpec.InitNoticeCounts` | hello.c:72-98 | exactly one "may not be ideal" warning for 5..10, and it is printed first, so before every progress notice; none for other counts; one progress notice per appended record; one success notice only on full success; on failure, one Freeing notice per drained record |
| `HelloSpec.InitPreservesConsistent` | hello.c:67-100 | on every path, hello_init keeps every allocated record either freed exactly once or listed exactly once |
| `HelloSpec.ExitEffect` | hello.c:102-107 | hello_exit prints the start notice, one Freeing notice per record in list order, then the end notice; it frees every record once and empties the list; on an empty list it prints only the two notices |
| `HelloSpec.ExitPreservesConsistent` | hello.c:102-107 | hello_exit keeps every allocated record either freed exactly once or listed exactly once |
| `HelloSpec.LifecycleFreesEachOnce` | hello.c:67-107 | on every path (init fails, or init succeeds and exit runs later), the list ends empty and the free history equals the allocation history 0..n-1, with no repeats |
| `HelloSpec.LifecycleLog` | hello.c:87-107 | after a successful load and an unload, the log is exactly: warning (if any), progress 1..count, success, unload start, one Freeing notice per record with the records in allocation order (first in, first out), unload end |
| `HelloSpec.DrainTimes` | hello.c:59-61 | draining the records of n iterations prints clock(0), …, clock(n-1) in that order, so the drain of LifecycleLog is first in, first out |
| `Hello.HelloModule.constructor` | hello.c:44-53 | module load: hello_count is the parameter or 1; the list, log and histories start empty |
| `Hello.HelloModule.FreeHelloList` | hello.c:55-65 | the loop's final state is AfterFree of the initial state; it keeps Consistent |
| `Hello.HelloModule.HelloInit` | hello.c:67-100 | the final state and return code are AfterInit of the initial state: the two refusals, then the warning for 5..10, then the allocation loop; it keeps Consistent |
| `Hello.HelloModule.AllocateItems` | hello.c:87-99 | the loop runs until hello_count records are appended or an allocation fails; the final state and return code are AfterLoop of the initial state (drain and -ENOMEM on failure, success notice and 0 otherwise); it keeps Consistent |
| `Hello.HelloModule.AddItem` | hello.c:88-95 | one successful iteration: the new record with the next identity and clock(i) goes to the tail, and progress notice i+1 is printed; it keeps Consistent |
| `Hello.HelloModule.HelloExit` | hello.c:102-107 | the final state is AfterExit of the initial state; it keeps Consistent |
| `Hello.LoadThenUnload` | hello.c:109-110 | the host loads the module and unloads it only if hello_init returned 0; the return code and the whole log match the lifecycle function, nothing is left on the list, and the module's free and allocation histories (returned as ghost values and equal to those of the lifecycle function) are equal, have no repeats and have one entry per record appended |

## Left out

- printk formatting. Each line becomes a `Notice` value with its level (`Level()`); the format strings are not modelled.
- kmalloc, kfree, GFP_KERNEL and `sizeof`. Allocation is the `failAt` oracle. Freeing is removal from the list plus an entry in the freed history. Address reuse by the allocator is not modelled: each allocation gets a new identity.
- ktime_get and ktime_to_ns. The timestamps are opaque values `clock(i)` of the signed 64-bit `ktime` type.
- The intrusive `list_head` links and the `list_for_each_entry_safe` macro. A sequence with tail append and head removal stands in for them.
- The `module_param`, `MODULE_*`, `module_init` and `module_exit` macros. `LoadThenUnload` stands in for the host's lifecycle.
- Concurrency. The kernel serialises init and exit, and the module has none of its own.
- Hello.HelloModule.FreeHelloList: the order between a record's Freeing line and its kfree. The log and the free history are two separate sequences, so no contract says that the line comes before the free. The loop body of `FreeHelloList` does the two in the source's order.
- The placement of hello_init's loop. In the source it is inline. Here it is the method `AllocateItems`, with its body in `AddItem`, so that each proof stays small. The steps and their order are unchanged.
