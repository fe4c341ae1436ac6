# UhyokOS, verified

UhyokOS is a small x86-64 kernel. This project models its stateful algorithms in
Dafny and proves what they keep over whole runs: the window compositor, the xHCI
rings, the scheduler with its mailboxes and timer, the USB port bring-up and
control transfers, the allocators, the PCI scan and the loader of the kernel.

`dafny verify dfyconfig.toml` checks the whole project.

## How it is built

Code that updates state in the source is a class here, with the source's fields
and loops. Each such method is proved against a function of the old state, or
states its effect outright, and the theorems are lemmas about those functions or
about state machines made from them.

- **Compositor.** `Graphics`, `FrameBuffers`, `Windows`, `StackOrder`,
  `Composition`, `Layers`, `Desktops`. `Composition.Composite` is the reference: at
  each pixel the colour of the highest layer that paints it.
  `Layers.LayerManager.Composed` says that the screen and the back buffer show it.
  `Desktops` plays runs of drawing, moving and activating on the classes.
- **Rings.** `Rings` is the producer, one store at a time. `RingProtocol` lets the
  host controller read one word between any two stores, and proves safety over
  all runs. `RingProgress` tells exactly when the controller gets through.
  `EventRings` is the consumer and its loop, with the controller storing events
  word by word in between.
- **Tasks.** `Scheduler` holds the state of the task manager as a value and its
  invariant, `Tasks` the classes, `Timers` the timer heap and the timer interrupt.
  `Kernels` adds the interrupt flag, the context switch and the position of each
  task in its receive-or-sleep loop. `BoundedResponse` counts timer ticks.
- **USB.** `PortConfig` is the bring-up of ports, `PortAccounts` says what it asks
  for, read off the phases of the ports, `CommandRings` joins it with the command ring, `ArrayMaps` and `ControlTransfers` pair completions with requests,
  `UsbMemory` is the driver's allocator.
- **Memory and start.** `Frames`, `MemoryManager` and `MemoryMaps` are the frame
  allocator, `Pci` and `PciTree` the bus scan, `Elf` the loader.

## What the proofs found

- A ring with `buf_size - 1` outstanding TRBs is safe but can stop for ever: if the
  last data slot is filled while the controller polls the link TRB, the link TRB
  gets the next lap's cycle bit and the controller waits for a bit that no one will
  write. `RingProgress.LimitIsExact`: the controller always gets through iff at
  most `buf_size - 2` TRBs are outstanding. `RingProgress.PushSticks` gives the
  push that does it.
- When a device has its address, the turn passes on iff the lowest waiting port is
  still connected (`PortConfig.TurnPasses`); no other event leaves a port waiting
  while it is nobody's turn (`PortConfig.NoneIdleExact`). If it was unplugged, the other waiting
  ports stay behind while it is nobody's turn; `PortConfig.UnpluggedWaits` gets
  there in five events from the start, and only the end of another port's turn
  leads on (`PortConfig.OnlyTurnsEndWaits`). While waiting ports stay connected,
  port p waits for at most p turns (`PortConfig.WaitBounded`).
- `Activate` puts a layer directly under the mouse iff the layer was shown already
  (`StackOrder.ActivatedUnderTop`). The terminal activates its layer before it is
  shown (`kernel/terminal.cpp:226`), so that it lands one lower.
- A transparent layer ignores the area that is drawn. Drawing all layers in an area
  keeps a right pixel outside it iff no transparent layer paints it or the highest
  one that does is seen (`Composition.RedrawExact`). An arrangement of layers is
  drawn right for all contents iff nowhere on the screen an opaque layer overlaps a
  transparent one below it (`Composition.UncoveredExact`, with the failing stack
  `Composition.Breaking`). The compositor's theorems assume no more than that, and
  for moving that an opaque bottom layer covers the screen.
- `Draw(id, area)` after any change of a layer composes again iff each pixel is
  painted by the layer inside the area or was not altered by the change
  (`Layers.LayerManager.Draw`): what a transparent window no longer paints stays on
  the screen (`Composition.ErasedStays`).
- `Activate` on a stack of a background and a mouse puts a hidden layer below the
  background. The bottom layer stays the bottom one iff it is the activated layer
  exactly when the mouse is right above the bottom (`StackOrder.BottomStays`).
- The mask form of `Ceil` rounds up iff the alignment is a power of two
  (`UsbMemory.CeilExact`). `kernel/usb/memory.hpp` promises alignment and
  boundaries without that condition. In every run, blocks with powers of two or 0
  are as promised, whatever else is asked for (`UsbMemory.RunPromised`). For an
  alignment below a quarter and a boundary below a fifth of the pool, wherever the
  pool lies, every block of every run is as promised iff both are powers of two or 0
  (`UsbMemory.PromiseExact`): otherwise one request moves the pointer to where the
  next gets a misaligned byte, or a block of the boundary's size that crosses it. A
  given pool may have no room for a block that shows it with larger ones, but some
  pool always has (`UsbMemory.AlignmentExact`, `UsbMemory.BoundaryExact`). Blocks are
  disjoint for every alignment. A failed allocation still moves the pointer.
- `Sleep` leaves a task to go on with iff another one runs (`Scheduler.SleepExact`);
  the source takes the front of an empty queue otherwise, as for the main task after
  the idle task (`Scheduler.IdleFirst`).
- The PCI scan succeeds iff no bus that it comes to lies behind itself and the
  depth-first order fits in the table (`PciTree.ScanSucceeds`).
- The loader's page count holds the image iff its range can be rounded up in 64 bits
  (`Elf.PagesHold`); for two segments at both ends of the address space it is 0
  (`Elf.ApartHoldsNothing`). An image without LOAD segments asks for one page at the
  highest address, since the subtraction wraps around (`Elf.CalcLoadAddressRange`).
- The bring-up pushes commands without a check and keeps the ring's limit all the
  same: at most nine are outstanding, of the thirty that a ring of 32 TRBs bears
  (`CommandRings.CommandsGetThrough`). Unless a completion is refused, exactly as many
  are outstanding as ports wait for one.
- Any level is round robin: a task waits for at most its position in its queue, in
  expiries of the task timer during which no higher level has a task
  (`BoundedResponse.BoundedResponse`).

## Assumptions

- Coordinates, sizes, ticks and addresses are unbounded integers; where a sum must
  not leave the 64-bit range, the contract says so. A TRB is four 32-bit words, the
  bitmap has 64-bit lines, lengths in TRBs are cut to 17 bits.
- A pixel is its three colour bytes. The reserved fourth byte is not modelled, and
  neither are the two byte orders: buffers of different formats refuse to copy.
- A shown layer that is drawn has a window, and shown layers do not share windows or
  buffers. A draw of a layer that is not shown copies an area that the source leaves
  unset: any area, with no rows of negative length. The mouse layer is shown above
  the bottom one when a layer is activated. The iterators that `UpDown` uses after
  `erase` are read as indices.
- The two layers that `Activate` repaints do not share a window.
- A ring has at least two TRBs and its caller keeps the stated limit; for the command
  ring that is proved. The controller reads the control word of a TRB first and its
  other words later, one at a time.
- The controller completes only commands that it has taken, each once, and enables
  each slot once, numbered from 1. A handler finishes its push before the next runs.
- `SendMessage` is one step for every caller, also where interrupts are not masked
  (`kernel/keyboard.cpp:67`). Interrupt handlers run with the flag cleared.
- In the runs of `Scheduler` and `Kernels` the idle task is never put to sleep; in
  `Kernels` a task puts only itself to sleep. Levels lie between 0 and 3. The tick
  stays below the sentinel's timeout.
- The controller stores the first three words of an event in any order, then the one
  with the cycle bit, and does not overrun the dequeue pointer.
- Ports are numbered from 1. Nothing is assumed about the port numbers in device
  contexts or about the order of events.
- Control transfers succeed, and those under way lie within the last 31 pushes.
- The memory map is sorted, disjoint, page-aligned and within 128 GiB.
- The configuration space answers the same on every read during a scan.

## Model

| member | source | states |
|---|---|---|
| Graphics.Intersect | kernel/graphics.hpp:75-87 | a pixel is in the intersection iff it is in both rectangles, for sides of any sign; regular rectangles have a regular intersection, and one regular rectangle suffices for no row of negative length |
| FrameBuffers.Clip | kernel/frame_buffer.cpp:72-76 | the three-way clipping is exactly the wanted pixels that both buffers have |
| FrameBuffers.ClipFits | kernel/frame_buffer.cpp:72-76 | what is left of it lies inside both buffers, and no row has a negative length |
| FrameBuffers.RowStartIsProduct | kernel/frame_buffer.cpp:13-16 | the row address by repeated addition is the product with the stride |
| FrameBuffers.CopyRowsCell | kernel/frame_buffer.cpp:78-85 | the row loop is, cell by cell, the shifted source inside the rows done and the old contents elsewhere, for different strides |
| FrameBuffers.MoveRowsCell | kernel/frame_buffer.cpp:95-111 | rows handled in the loop's direction never read a row already overwritten: the result is the simultaneous copy of the old contents |
| FrameBuffers.Memcpy | kernel/frame_buffer.cpp:82 | the stretch is copied and nothing else changes |
| FrameBuffers.FrameBuffer.Copy | kernel/frame_buffer.cpp:62-88 | writes exactly the clipped rectangle from the shifted source pixels, nothing else, padding included; refuses formats that differ or are unknown |
| FrameBuffers.FrameBuffer.CopyLoop | kernel/frame_buffer.cpp:78-85 | the two moving addresses stay inside both buffers and produce the copied rows |
| FrameBuffers.FrameBuffer.Move | kernel/frame_buffer.cpp:91-112 | whichever way the rectangles overlap, the result is the simultaneous copy of the old contents |
| FrameBuffers.FrameBuffer.MoveUp | kernel/frame_buffer.cpp:95-102 | the loop from the top row on |
| FrameBuffers.FrameBuffer.MoveDown | kernel/frame_buffer.cpp:103-111 | the loop from the bottom row on |
| Windows.Window.Write | kernel/window.cpp:79-82 | one pixel of the table and of the shadow buffer changes |
| Windows.RowsWritten | kernel/window.cpp:79-82 | after writes, a pixel of the table has the colour of the last write to it, and its old one if there is none |
| Windows.ShadowWritten | kernel/window.cpp:79-82 | so has a pixel of the shadow buffer |
| Windows.ContentWritten | kernel/window.cpp:79-82 | both at once, for every pixel of the window |
| Windows.Window.WriteAll | kernel/window.cpp:106-110 | a drawing routine, given by its pixels, leaves in both copies at each pixel the colour of the last write to it, or the old one |
| Windows.Window.DrawTo | kernel/window.cpp:43-65 | each pixel of the target gets what the window shows there inside the area; a transparent window skips its key colour and ignores the area |
| Windows.Window.DrawOpaque | kernel/window.cpp:44-49 | exactly the window's pixels inside the area are copied from the shadow buffer |
| Windows.Window.DrawKeyed | kernel/window.cpp:51-64 | exactly the visible pixels that differ from the key are written |
| Composition.DrawInside | kernel/layer.cpp:66-71 | inside the area the loop over the layers composes bottom to top |
| Composition.CompositeHighest | kernel/layer.cpp:66-71 | the composition shows at each pixel what the highest layer that paints it does, or nothing |
| Composition.PaintIs | kernel/window.cpp:43-65 | a layer paints the shadow buffer's pixel at that place, or the table's unless it is the key |
| Composition.DrawOutside | kernel/layer.cpp:66-71 | outside the area the highest transparent layer that paints a pixel has its way, whatever lies above it |
| Composition.RedrawExact | kernel/layer.cpp:66-95 | redrawing the layers from any height on keeps a right pixel iff it is in the area, or no transparent layer among them paints it, or the highest one that does is seen |
| Composition.UncoveredExact | kernel/window.cpp:43-65 | an arrangement of layers keeps every right pixel whatever the windows contain and whatever area is drawn iff on the screen no opaque layer overlaps a transparent one below it |
| Composition.BreakingBreaks | kernel/window.cpp:51-64 | a stack of four layers, the top one transparent, on which drawing elsewhere makes a right pixel wrong |
| Composition.MovedPixel | kernel/layer.cpp:97-113 | one pixel through a move: the two redraws end in the composition with the layer at its new place, and pixels never shown did not change |
| Composition.ChangedExact | kernel/layer.cpp:77-94 | one pixel of the back buffer when a layer changed in any way and is drawn in an area: right iff the layer paints it in the area, a transparent layer from there on draws it, or the change did not alter it |
| Composition.DrawnPixel | kernel/layer.cpp:77-95 | both buffers after that: right iff the layer paints the pixel in the area or the change did not alter it |
| Composition.ErasedStays | kernel/layer.cpp:77-95 | a transparent window over a background whose erased pixel stays on the screen whatever area is drawn |
| Composition.RestackedPixel | kernel/layer.cpp:202-220 | one pixel when an opaque layer takes another height and is drawn |
| Layers.LayerManager.DrawArea | kernel/layer.cpp:66-71 | the back buffer is what the layers draw in turn, and the screen takes over the area |
| Layers.LayerManager.DrawScreen | kernel/layer.cpp:66-71 | drawing the whole screen shows the composition whatever was there before |
| Layers.LayerManager.DrawLayer | kernel/layer.cpp:77-95 | the layer and those above it are drawn inside the layer's window and the area, and shown there; for a layer that is not shown nothing is drawn |
| Layers.LayerManager.DamageIs | kernel/layer.cpp:77-90 | the pixels redrawn are those of the window in the area, which is relative to it, or all of them for two negative sides |
| Layers.LayerManager.Draw | kernel/layer.cpp:77-95 | after any change of any layer, shown or not, composed buffers are composed again iff each pixel is one the layer paints inside the area or one the change did not alter |
| Layers.LayerManager.Repaint | kernel/layer.cpp:73-95 | writing to an opaque window and drawing an area that holds what was written keeps the buffers composed |
| Layers.LayerManager.Move | kernel/layer.cpp:97-104 | from composed buffers to buffers composed with the layer, shown or not, at its new place |
| Layers.LayerManager.MoveRelative | kernel/layer.cpp:106-113 | the same for a relative move |
| Layers.LayerManager.UpDown | kernel/layer.cpp:115-138 | the layer is inserted among the others at the height asked for, at most on top; a negative height hides it |
| Layers.LayerManager.Hide | kernel/layer.cpp:140-146 | the others stay in their order |
| Layers.LayerManager.FindLayer | kernel/layer.cpp:169-178 | finds the layer with that id or none |
| Layers.LayerManager.GetHeight | kernel/layer.cpp:180-187 | the lowest height with that id, or -1 when there is none |
| Layers.LayerManager.Raise | kernel/layer.cpp:214-219 | the second half of `Activate`: from composed buffers to composed buffers |
| Layers.ActiveLayer.Activate | kernel/layer.cpp:202-220 | each pixel of the new active window has the colour of the last write of its active drawing to it, each of the old one that of its inactive drawing, or its old colour; the stack is what `UpDown` to the height below the mouse makes of it, and the buffers stay composed |
| Desktops.Begin | kernel/layer.cpp:66-71 | drawing the whole screen starts such a run from whatever the buffers held |
| Desktops.PlayActivate | kernel/layer.cpp:202-220 | `Activate` on the real layers does to the real stack and windows what `Desk.After` says, and the buffers stay composed |
| Desktops.LastWriteThen | kernel/window.cpp:79-82 | of two drawings one after the other the last write counts |
| Desktops.Play | kernel/layer.cpp:66-220 | any run of writing and drawing, `Move`, `MoveRelative` and `Activate` whose arrangements are all composable leaves both buffers composed, the layers where the run put them, and each pixel of each window with the colour of the last write to it in the run |
| StackOrder.RaisedKeeps | kernel/layer.cpp:115-138 | no duplicates, the others in their order, and the layer at height min(asked, top) |
| StackOrder.RunKeeps | kernel/layer.cpp:115-146 | over any run of `UpDown` and `Hide` the stack has no duplicates and layers that no call names keep their order |
| StackOrder.StepExact | kernel/layer.cpp:115-146 | a negative height takes a layer out; any other puts it at that height among the others, or on top |
| StackOrder.ActivatedUnderTop | kernel/layer.cpp:217 | the mouse layer stays on top, and the activated layer is directly under it iff it was shown before |
| StackOrder.BottomStays | kernel/layer.cpp:217 | the bottom layer stays the bottom one iff it is the activated layer exactly when the mouse layer is right above the bottom |
| Rings.StampFacts | kernel/usb/xhci/ring.cpp:36-37 | stamping sets the cycle bit and no other |
| Rings.LinkBits | kernel/usb/xhci/ring.cpp:46-48 | the link TRB has type 6, leads to the start of the ring and toggles the cycle |
| Rings.Ring.CopyToLast | kernel/usb/xhci/ring.cpp:31-38 | the four stores in order, the control word with the cycle bit last |
| Rings.Ring.Push | kernel/usb/xhci/ring.cpp:40-55 | the stores made are exactly those of `PushWrites`, in order; the memory, position and cycle bit afterwards |
| Rings.PushStores | kernel/usb/xhci/ring.cpp:40-55 | these stores, made one by one, leave the memory that `Push` leaves |
| RingProtocol.InitInv | kernel/usb/xhci/ring.cpp:13-29 | the invariant holds after initialization |
| RingProtocol.BodyKeeps | kernel/usb/xhci/ring.cpp:32-35 | the stores of the first three words touch no TRB that the controller may read |
| RingProtocol.ControlKeeps | kernel/usb/xhci/ring.cpp:36-37 | the control word makes the TRB visible, complete |
| RingProtocol.LinkBodyKeeps | kernel/usb/xhci/ring.cpp:46-48 | rewriting the link TRB's pointer disturbs no read in progress |
| RingProtocol.LinkControlKeeps | kernel/usb/xhci/ring.cpp:46-51 | the link TRB's control word ends the lap, and overruns the link iff the controller still had to follow the old one |
| RingProtocol.TakeKeeps | kernel/usb/xhci/ring.cpp:31-38 | what the controller accepts is the next pushed TRB, read whole |
| RingProtocol.FollowKeeps | kernel/usb/xhci/ring.cpp:46-51 | following the link TRB starts the next lap |
| RingProtocol.StepKeeps | kernel/usb/xhci/ring.cpp:31-55 | every store and every read keeps the invariant |
| RingProtocol.RunSafe | kernel/usb/xhci/ring.cpp:31-55 | in every interleaving of stores and reads the controller has taken a prefix of the pushed TRBs, whole and in order, and never leaves the ring |
| RingProgress.DrainIff | kernel/usb/xhci/ring.cpp:40-55 | between pushes the controller takes everything iff it is not stuck at a link TRB of a later lap |
| RingProgress.StuckForever | kernel/usb/xhci/ring.cpp:45-52 | once stuck, no sequence of events changes the state |
| RingProgress.PushSticks | kernel/usb/xhci/ring.cpp:40-55 | a push gets the controller stuck iff it fills the last data slot while the controller polls the link TRB |
| RingProgress.LimitIsExact | kernel/usb/xhci/ring.cpp:40-55 | the controller gets through every run iff at most two fewer TRBs than the ring has are outstanding |
| EventRings.FrontIsPending | kernel/usb/xhci/ring.hpp:88-94 | the cycle bit at the dequeue pointer tells whether an event is pending, and the front is the oldest one |
| EventRings.PopKeeps | kernel/usb/xhci/ring.cpp:102-115 | popping keeps the pending events between the two ends, around the end of the ring |
| EventRings.ProduceKeeps | kernel/usb/xhci/ring.hpp:78-94 | so does the last word of an event, with its cycle bit, which makes the whole event pending |
| EventRings.BegunKeeps | kernel/usb/xhci/ring.hpp:78-94 | the other words of an event that is being written change nothing that is pending |
| EventRings.EventRing.Store | kernel/usb/xhci/ring.hpp:78-94 | one word of the next event, the control word after the others: only that one delivers the event |
| EventRings.EventRing.HasFront | kernel/usb/xhci/ring.hpp:88-94 | true iff an event was produced and not popped |
| EventRings.EventRing.Pop | kernel/usb/xhci/ring.cpp:102-115 | the pointer advances, wraps and flips the cycle bit; one more event is popped |
| EventRings.DispatchedRight | kernel/usb/xhci/xhci.cpp:520-526 | transfer, command completion and port status change events, of types 32, 33 and 34, each go to their own handler, and no other event has one |
| EventRings.EventRing.ProcessEvent | kernel/usb/xhci/xhci.cpp:513-530 | the oldest event goes to the handler of its type and is popped, also when there is no handler |
| EventRings.EventRing.ProcessEvents | kernel/usb/xhci/xhci.cpp:600-607 | with the controller storing words of events between any two steps, every event is handled once, in order and whole, by the handler of its type, and the loop ends exactly when none is pending |
| Scheduler.StartGood | kernel/task.cpp:80-93 | the invariant holds after construction |
| Scheduler.SwitchPicks | kernel/task.cpp:100-125 | after a switch no level above the current one has a task |
| Scheduler.SwitchQueues | kernel/task.cpp:100-108 | the current task goes to the back of its queue, at whatever level, or out of it if it sleeps; every other queue is as before |
| Scheduler.SwitchKeeps | kernel/task.cpp:100-125 | a switch keeps the invariant |
| Scheduler.SleepKeeps | kernel/task.cpp:128-140 | so does putting any task but the idle one to sleep, current or not |
| Scheduler.SleepExact | kernel/task.cpp:128-140 | putting a running task to sleep, also the idle one, leaves queues with a current task iff another task runs |
| Scheduler.IdleFirst | kernel/task.cpp:128-140 | right after the start the idle task may sleep, and then the main task leaves nobody to go on with |
| Scheduler.SleepOrder | kernel/task.cpp:128-140 | another task put to sleep leaves the queue of its level, where the others keep their order, and nothing else changes |
| Scheduler.WakeKeeps | kernel/task.cpp:158-176 | so does waking, or changing the level of a running task, after which the task runs |
| Scheduler.WakeOrder | kernel/task.cpp:158-176 | a task that wakes goes to the back of the queue of its level, and a change is pending iff one was or that is higher than the current one |
| Scheduler.LevelOrder | kernel/task.cpp:211-220 | a running task whose level changes goes from its place to the back of the other queue |
| Scheduler.LevelOrderCurrent | kernel/task.cpp:222-232 | the current task goes to the front of the other queue and stays current |
| Scheduler.LevelCurrent | kernel/task.cpp:222-232 | the current task may change its own level |
| Scheduler.LevelOther | kernel/task.cpp:211-220 | and that of another task |
| Scheduler.SendKeeps | kernel/task.cpp:64-67 | a message is appended to the mailbox and its task runs |
| Scheduler.SendOrder | kernel/task.cpp:64-67 | the message goes to the back of the mailbox; a sleeping receiver goes to the back of the queue of its own level, a running one stays |
| Scheduler.RunPlaces | kernel/task.cpp:80-233 | after any operations a task is marked running iff it is in the queue of its own level, once, and in no other; the current queue has a task; without a pending change, and right after a switch, no higher level has one |
| Tasks.Task.ReceiveMessage | kernel/task.cpp:70-78 | the oldest message, or none |
| Tasks.Erase | kernel/task.cpp:8-13 | every occurrence goes, the others keep their order |
| Tasks.TaskManager.constructor | kernel/task.cpp:80-93 | the initial task runs at level 3 and the idle task at level 0 |
| Tasks.TaskManager.NewTask | kernel/task.cpp:95-98 | a sleeping task of the default level with the next id |
| Tasks.TaskManager.SwitchTask | kernel/task.cpp:100-125 | the new state, the task switched from and the task switched to |
| Tasks.TaskManager.Preempt | kernel/timer.cpp:89-91 | on every level the current task goes to the back of its queue and the other queues stay |
| Tasks.TaskManager.SleepTask | kernel/task.cpp:128-140 | the new state of the whole manager, for any task as long as another one runs |
| Tasks.TaskManager.Sleep | kernel/task.cpp:143-152 | the same by id; an unknown id is an error and changes nothing |
| Tasks.TaskManager.WakeupTask | kernel/task.cpp:158-176 | the new state of the whole manager |
| Tasks.TaskManager.Wakeup | kernel/task.cpp:179-188 | the same by id; an unknown id is an error and changes nothing |
| Tasks.TaskManager.ChangeLevelRunning | kernel/task.cpp:207-233 | the new queues, levels and current level |
| Tasks.TaskManager.SendMessage | kernel/task.cpp:191-200 | the message is in the mailbox and the task awake; an unknown id is an error |
| Tasks.TaskManager.CurrentTask | kernel/task.cpp:203-205 | the head of the current level's queue |
| Timers.TimerManager.Top | kernel/timer.hpp:25-27 | a timer with the least timeout |
| Timers.TimerManager.Tick | kernel/timer.cpp:54-80 | terminates; expired timers are sent once each, earliest first, to the main task; expired task timers are due again a period later; the others stay |
| Timers.TickExact | kernel/timer.cpp:54-80 | afterwards nothing is due, and no timer was lost or made |
| Timers.TaskTimerStays | kernel/timer.cpp:64-70 | one task timer, due within a period, stays one; it expires exactly at its time |
| Timers.TimerInterrupt | kernel/timer.cpp:85-92 | the messages are delivered, and tasks switched iff the task timer expired |
| Kernels.SleepInv | kernel/main.cpp:175-185 | going to sleep with an empty mailbox and interrupts masked keeps the invariant |
| Kernels.ReceiveKeeps | kernel/task.cpp:70-78 | so does looking into the mailbox |
| Kernels.TickInv | kernel/timer.cpp:85-92 | so does the timer interrupt, with or without a switch |
| Kernels.SwitchToKeeps | kernel/asmfunc.asm:128-145 | the flag goes with the context: only a task that can be interrupted resumes unmasked |
| Kernels.StepKeeps | kernel/task.cpp:64-140 | every step of a task and every interrupt keeps the invariant |
| Kernels.StepHistories | kernel/task.cpp:64-78 | messages are appended by senders and taken from the front by their own task only |
| Kernels.NoLostWakeup | kernel/terminal.cpp:231-238 | in every reachable state a sleeping task has an empty mailbox, and what was sent to a task is what it received followed by its mailbox |
| BoundedResponse.SwitchNearer | kernel/task.cpp:100-125 | while no higher level has a task, a switch brings every other task of the level one place nearer to running |
| BoundedResponse.WokenWaits | kernel/task.cpp:158-176 | a task woken at any level waits for at most as many switches as its queue then has tasks |
| BoundedResponse.StepNearer | kernel/task.cpp:100-125 | while no higher level has a task and levels are kept, no step makes a task wait longer, and each expiry of the task timer brings it nearer |
| BoundedResponse.ExpiriesOfTicks | kernel/timer.cpp:54-80 | in every run the task timer expires once a period |
| BoundedResponse.BoundedResponse | kernel/timer.cpp:85-92 | a task of any level that waits for at most n switches is current at some point of every run with n expiries, or n periods of ticks, in which no higher level has a task and no running task's level changes |
| BoundedResponse.NoneHigherAtTop | kernel/task.hpp:64-65 | for the highest level that first condition always holds |
| BoundedResponse.WokenRuns | kernel/task.cpp:158-176 | so a task woken at any level that leaves q tasks in its queue runs within q expiries |
| BoundedResponse.TaskTimerAlways | kernel/task.cpp:237-244 | in every reachable state there is one task timer, due within a period |
| PortConfig.HandleKeeps | kernel/usb/xhci/xhci.cpp:197-284 | every event keeps the turn exclusive: the ports between reset and address are exactly the one whose turn it is; and no phase goes back |
| PortConfig.TurnPasses | kernel/usb/xhci/xhci.cpp:257-269 | when a device has its address the turn goes to the lowest waiting port; it is nobody's turn while one waits iff that port is not connected |
| PortConfig.NoneIdleExact | kernel/usb/xhci/xhci.cpp:197-284 | for every event: a port comes to wait while it is nobody's turn iff the event ends a turn and the lowest waiting port is not connected |
| PortConfig.UnpluggedWaits | kernel/usb/xhci/xhci.cpp:91-113 | five events from the start after which a port that was unplugged waits while it is nobody's turn |
| PortConfig.OnlyTurnsEndWaits | kernel/usb/xhci/xhci.cpp:197-284 | a port's wait is ended only by the end of another port's turn |
| PortConfig.WaitBounded | kernel/usb/xhci/xhci.cpp:257-269 | while port p waits and waiting ports stay connected, fewer turns end than ports come before it, which are at most p |
| PortConfig.RunOnce | kernel/usb/xhci/xhci.cpp:91-132 | in any run each port's reset is requested once if it came so far, and acknowledged once if it came past it, and not before |
| PortConfig.RunNoneIdle | kernel/usb/xhci/xhci.cpp:197-284 | while waiting ports stay connected, it is nobody's turn only when nobody waits |
| PortConfig.ChangesBounded | kernel/usb/xhci/xhci.cpp:91-284 | a port's phase changes at most seven times in any run |
| PortConfig.RefusedChangesNothing | kernel/usb/xhci/xhci.cpp:197-284 | an event out of turn is refused and changes nothing |
| PortConfig.Configurator.OnAddressed | kernel/usb/xhci/xhci.cpp:244-271 | the search for the lowest waiting port, its reset, and the device's next phase and the start of its own initialization |
| PortConfig.Configurator.OnEvent | kernel/usb/xhci/xhci.cpp:197-284 | each event by type and phase, with its error and with the requests to ports, commands and calls of devices in their order |
| PortAccounts.PhasesExact | kernel/usb/xhci/xhci.cpp:91-284 | for every event and port: the phase it is in afterwards, from the phases and registers before |
| PortAccounts.ErrorsExact | kernel/usb/xhci/xhci.cpp:91-284 | the error of every event, from the phases and the allocated devices |
| PortAccounts.DevicesExact | kernel/usb/xhci/xhci.cpp:134-142 | a device is allocated exactly when a slot in range is enabled for the port whose turn it is |
| PortAccounts.ActionsExact | kernel/usb/xhci/xhci.cpp:91-284 | an event asks for exactly what is due for the phases that ports enter by it, in order and for its own slot |
| PortAccounts.HandleSlots | kernel/usb/xhci/xhci.cpp:134-284 | each command or call for a slot is made once for each accepted event of this slot that leads to it, and for no other |
| PortAccounts.RunActions | kernel/usb/xhci/xhci.cpp:91-284 | so in every run: the actions are those due for the phases entered, step by step |
| PortAccounts.RunAccounts | kernel/usb/xhci/xhci.cpp:115-284 | after every run there was one slot asked for per port that came past its reset, one address per port that got a slot, one initialization per addressed port, one configuration of endpoints per initialized port and one call per configured port |
| PortAccounts.RunDevices | kernel/usb/xhci/xhci.cpp:134-166 | after every run exactly the allocated devices had their address asked for, each once if the controller enables each slot once |
| CommandRings.HandleAccounts | kernel/usb/xhci/xhci.cpp:115-284 | no event issues more than one command; the commands issued and the ports that wait for one go up together, except that an accepted completion ends one wait |
| CommandRings.CommandsExact | kernel/usb/xhci/xhci.cpp:115-284 | after every run as many commands were issued as ports came to the phases that wait for one |
| CommandRings.BusyFew | kernel/usb/xhci/xhci.hpp:32 | at most one port more than there are slots waits for a command |
| CommandRings.CommandsGetThrough | kernel/usb/xhci/xhci.cpp:402 | however handlers, their stores and the controller's reads and completions interleave, the commands pushed are those completed and accepted and one for each port that waits; at most nine are outstanding, no push meets a full ring, and between pushes the controller takes everything |
| ArrayMaps.PutIsUpdate | kernel/usb/arraymap.hpp:25-33 | with a free entry and a new key, the table becomes the map with that key added |
| ArrayMaps.DeleteIsRemoval | kernel/usb/arraymap.hpp:35-42 | the table becomes the map without that key |
| ArrayMaps.KeyCount | kernel/usb/arraymap.hpp:44-45 | without double keys the table is full iff it has as many keys as entries |
| ArrayMaps.ArrayMap.Get | kernel/usb/arraymap.hpp:16-23 | the value of the first entry with that key, or none |
| ArrayMaps.ArrayMap.Put | kernel/usb/arraymap.hpp:25-33 | the first free entry is taken; a full table stays |
| ArrayMaps.ArrayMap.Delete | kernel/usb/arraymap.hpp:35-42 | the first entry with that key is freed |
| ControlTransfers.SetupRoundTrip | kernel/usb/xhci/device.cpp:10-19 | the setup data read back from the stage's words is the submitted one |
| ControlTransfers.FewPending | kernel/usb/xhci/device.cpp:107-199 | requests within the last 31 pushes never fill the map |
| ControlTransfers.PushedStages | kernel/usb/xhci/device.cpp:107-199 | after the pushes the request's slots hold, word by word, a setup stage with the setup data as immediate data and transfer type 3, 2 or 0 for data in, data out or none; a data stage with buffer, cut length and direction; and a status stage in the other direction, in without data; no other bit but the cycle bit is set |
| ControlTransfers.ReportedExact | kernel/usb/xhci/device.cpp:129-149 | the interrupt-on-completion bit is set in exactly the stage under whose slot the map leads to the setup stage |
| ControlTransfers.PushedOthers | kernel/usb/xhci/device.cpp:107-199 | the slots of requests under way are left alone, also across the end of the ring |
| ControlTransfers.SubmitKeeps | kernel/usb/xhci/device.cpp:107-199 | a request that fits joins those under way, with a key of its own and room in the map |
| ControlTransfers.CompletionMatches | kernel/usb/xhci/device.cpp:235-285 | a successful completion gives back the setup data, buffer and transferred length of exactly its own request and removes only that |
| ControlTransfers.FailsExact | kernel/usb/xhci/device.cpp:238-242 | a transfer is reported as failed iff its code is neither 1 nor 13 |
| ControlTransfers.OtherEvents | kernel/usb/xhci/device.cpp:235-261 | any other event leaves the map alone: failures are reported, normal TRBs go to the interrupt driver with the transferred length, anything else is refused |
| ControlTransfers.RunMatches | kernel/usb/xhci/device.cpp:107-285 | in every run of requests and completions each completion is answered with its own request: its setup data, its buffer, and a length that with what is left is the length asked for |
| ControlTransfers.ControlPipe.ControlIn | kernel/usb/xhci/device.cpp:107-152 | the stages pushed for a request from the device, and the pair put into the map, on any ring; a request that fits keeps the invariant |
| ControlTransfers.ControlPipe.ControlOut | kernel/usb/xhci/device.cpp:154-199 | the same for a request to the device |
| ControlTransfers.ControlPipe.OnTransferEventReceived | kernel/usb/xhci/device.cpp:235-285 | the outcome by completion code, issuer and map entry |
| ControlTransfers.ControlRequest | kernel/usb/xhci/device.cpp:115-125 | an invalid endpoint or a missing ring is an error and changes nothing |
| UsbMemory.CeilExact | kernel/usb/memory.cpp:6-9 | the mask form is the least multiple not below the value, for every value, iff the alignment is a power of two |
| UsbMemory.PromiseExact | kernel/usb/memory.hpp:15-25 | wherever the pool lies, for an alignment below a quarter and a boundary below a fifth of it: in every run every block is aligned, and crosses no boundary when it is no larger than one, iff both are powers of two or 0 |
| UsbMemory.RunPromised | kernel/usb/memory.hpp:15-25 | in every run the blocks asked for with powers of two or 0 are as promised, whatever the other requests are |
| UsbMemory.StartLeast | kernel/usb/memory.cpp:21-40 | with powers of two or 0 no start that would be as promised is passed over, and a block larger than its boundary starts at one |
| UsbMemory.RefusedExact | kernel/usb/memory.cpp:32-34 | with these a block is refused iff none that would be as promised fits between the pointer and the end of the pool |
| UsbMemory.AlignmentBreaks | kernel/usb/memory.hpp:17 | in every pool, an alignment that is no power of two and below a quarter of it gets a misaligned block after one other request |
| UsbMemory.BoundaryBreaks | kernel/usb/memory.hpp:18-19 | in every pool, a boundary that is no power of two and below a fifth of it is crossed by a block of its size after one other request |
| UsbMemory.AlignmentExact | kernel/usb/memory.hpp:17 | for any alignment: the blocks of all runs in all pools are aligned iff it is a power of two |
| UsbMemory.BoundaryExact | kernel/usb/memory.hpp:18-19 | for any boundary: no block up to its size crosses it in any run in any pool iff it is a power of two |
| UsbMemory.MemoryPool.AllocMem | kernel/usb/memory.cpp:21-40 | the block's start, or none when it would not end in the pool; where the pointer then is |
| UsbMemory.BlocksDisjoint | kernel/usb/memory.cpp:21-40 | in every run the blocks lie in the pool and no two overlap |
| MemoryManager.WithBitOther | kernel/memory_manager.cpp:60-69 | setting one bit of a line leaves the other bits |
| MemoryManager.BitmapMemoryManager.SetBit | kernel/memory_manager.cpp:60-69 | exactly one frame changes |
| MemoryManager.BitmapMemoryManager.Allocate | kernel/memory_manager.cpp:9-33 | terminates; the lowest start of a free run inside the range, which is then used; no memory iff there is no such run |
| MemoryManager.BitmapMemoryManager.Free | kernel/memory_manager.cpp:35-40 | exactly these frames become free |
| MemoryManager.BitmapMemoryManager.MarkAllocated | kernel/memory_manager.cpp:42-46 | exactly these frames become used |
| Frames.UsedRulesOut | kernel/memory_manager.cpp:30-31 | no start up to a used frame that the run would reach can succeed, so that skipping is sound |
| Frames.AllocateKeeps | kernel/memory_manager.cpp:22-29 | a free run becomes a live block apart from all others |
| Frames.FreeKeeps | kernel/memory_manager.cpp:35-40 | a freed block leaves the others alone |
| Frames.RunDisjoint | kernel/memory_manager.cpp:9-40 | in any run of allocations and matching frees live blocks are disjoint, and used frames are those used at first and the live ones; once every block was freed the frames are what they were at first |
| MemoryMaps.MarkNext | kernel/memory_manager.cpp:94-114 | one descriptor: up to its end all frames are marked except the available ones |
| MemoryMaps.MarkDescriptors | kernel/memory_manager.cpp:91-114 | the loop over the map, and where available memory ends |
| MemoryMaps.Initialize | kernel/memory_manager.cpp:87-123 | in the managed range, which holds all available memory, a frame is free iff a descriptor of boot services code or data or conventional memory has it, before the heap takes the first fit of its frames |
| Pci.ScannedConcat | kernel/pci.cpp:40-98 | scanning continues where it stopped, and stops for good when the table is full |
| Pci.OnBusExact | kernel/pci.cpp:66-98 | the functions looked for on a bus are, in order, those of devices 0 to 31 with a function 0, the others only if bit 7 of its header type is set |
| Pci.RootBusesExact | kernel/pci.cpp:224-245 | a bus is a root iff it is bus 0 of a single-function host bridge, or a function with its number is there on a multi-function one |
| Pci.Scanner.AddDevice | kernel/pci.cpp:30-38 | the device is appended unless the table is full |
| Pci.Scanner.ScanFunction | kernel/pci.cpp:45-61 | the function and, for a bridge, what lies behind it |
| Pci.Scanner.ScanDevice | kernel/pci.cpp:66-83 | the device's functions in order |
| Pci.Scanner.ScanBus | kernel/pci.cpp:88-98 | all functions on the bus in order; terminates on any configuration space, also with cyclic bridges |
| Pci.Scanner.ScanAllBus | kernel/pci.cpp:228-245 | the same from bus 0, or from one bus for each function of the host bridge |
| PciTree.ScanExact | kernel/pci.cpp:30-98 | where no bus that the scan comes to lies behind itself, the table is the depth-first order, cut at its capacity, and the scan succeeds iff all of it fits |
| PciTree.ScanSucceeds | kernel/pci.cpp:30-98 | on any configuration space the scan succeeds iff no bus that it comes to lies behind itself and the depth-first order fits in the table |
| PciTree.ScanFinds | kernel/pci.cpp:40-98 | a scan that succeeds finds exactly the functions that are there, read from the configuration space, on the buses that a chain of bridges leads to from a root |
| PciTree.OrderExact | kernel/pci.cpp:40-98 | so does the depth-first order, whether or not the table holds it |
| PciTree.ScanOrder | kernel/pci.cpp:30-98 | every scan, complete or not and with cycles too, records functions that are there, each on a root bus or after a bridge that leads to its bus |
| PciTree.PreorderComplete | kernel/pci.cpp:40-98 | a function is in that order iff its bus is reached |
| PciTree.ScanOfTree | kernel/pci.cpp:228-245 | where the buses that the scan comes to are a tree every function is recorded once, and those in the order are exactly the functions that are there on reached buses |
| Elf.CalcLoadAddressRange | UhyokoLoaderPkg/Main.c:205-214 | the least range that holds all LOAD segments; without one the page count wraps around to one |
| Elf.PagesHold | UhyokoLoaderPkg/Main.c:391 | the counted pages hold every address that is written, and fewer would not, iff the range can be rounded up to pages in 64 bits |
| Elf.ApartHoldsNothing | UhyokoLoaderPkg/Main.c:391 | two segments at both ends of the address space, for which the count is 0 |
| Elf.CopyLoadSegments | UhyokoLoaderPkg/Main.c:217-229 | at every address the last segment that covers it wins, and nothing else changes |
| Elf.LoadExact | UhyokoLoaderPkg/Main.c:205-229 | disjoint segments are loaded intact, file bytes then zeros, and nothing outside the counted pages changes |

## Left out

- Layers.LayerManager.Draw: an area with a negative width and rows, for which the source passes a negative length to `memcpy`.
- Layers.ActiveLayer.Activate: a mouse layer that is hidden or at the bottom, with which `UpDown` is asked for a negative height and hides the activated layer without drawing what it covered.
- Desktops.Play: changes of a transparent window's contents; `Layers.LayerManager.Draw` says when those are drawn right.
- FrameBuffers.FrameBuffer.Move: rectangles that overlap within the same rows, where the source calls `memcpy` on overlapping memory.
- FrameBuffers.FrameBuffer.Copy: a buffer copied onto itself, and a source area with a negative width and rows.
- Windows.Window.WriteAll: which pixels a title bar or a text consists of.
- Rings.Ring.Push: a caller that does not keep a limit; the source has no check.
- Kernels.NoLostWakeup: a `SendMessage` that is itself interrupted half-way.
- BoundedResponse.BoundedResponse: levels changed meanwhile, and a level while a higher one has tasks, for which it may wait for ever.
- PortConfig.Configurator.OnEvent: the contents of the input context and the set-up of transfer rings.
- ControlTransfers.CompletionMatches: failed transfers, whose map entry the source never frees.
- MemoryMaps.Initialize: the exit when no heap fits; the result says so.
- UsbMemory.MemoryPool.AllocMem: sums that leave the 64-bit range.
- Elf.CopyLoadSegments: a file image that overlaps the segments' destination.
- Equality of a window's pixel table and its shadow buffer: `Window::Move` moves the shadow buffer only, so the source does not keep it.
- Fonts, window decoration, console and terminal text, and the mouse: only easy bounds.
- Memory-mapped registers, doorbells, busy waiting, MSI and the LAPIC: steps of the environment or dropped.
- Register save and restore in assembly, except for the interrupt flag.
- UEFI calls and file reading in the loader.
- Descriptor tables, page tables, FAT helpers and `ArrayQueue`: correct by layout, easy members.
- USB descriptors, class drivers and the table of event waiters in `kernel/usb/device.cpp`.
