// FoundsetTypeChangeMonitor and FoundsetTypeViewport as classes whose
// fields the methods update in place. Each method is proved to take the
// monitor (and the viewport bounds) to the state FoundsetSpec gives for
// the same call.
module FoundsetSync {
  import opened Wrappers
  import opened JavaLang
  import opened FoundsetSpec

  class ChangeMonitor {
    var flags: set<Flag>
    /** shouldSendWholeViewport of the viewport data monitor */
    var wholeViewport: bool
    /** the operations queued on the viewport data monitor */
    var changes: seq<ViewportChange>
    var handled: seq<Handled>
    /** whether a change notifier is registered */
    var hasNotifier: bool
    /** how many times the change notifier was called */
    var notifications: nat
    var lastHadMoreRecords: bool
    /** how many times the viewport was asked to go back to its preferred bounds */
    var preferredResets: nat

    function State(): Monitor
      reads this
    {
      Monitor(flags, wholeViewport, changes, handled, hasNotifier, notifications, lastHadMoreRecords, preferredResets)
    }

    constructor()
      ensures State() == Monitor({}, false, [], [], false, 0, false, 0)
    {
      flags := {};
      wholeViewport := false;
      changes := [];
      handled := [];
      hasNotifier := false;
      notifications := 0;
      lastHadMoreRecords := false;
      preferredResets := 0;
    }

    method NotifyChange()
      modifies this`notifications
      ensures State() == FoundsetSpec.Notified(old(State()))
    {
      if hasNotifier {
        notifications := notifications + 1;
      }
    }

    method RequestIdHandled(requestId: int, success: bool)
      modifies this`handled, this`notifications
      ensures State() == FoundsetSpec.RequestIdHandled(old(State()), requestId, success)
    {
      handled := handled + [Handled(requestId, success)];
      if |handled| == 1 {
        NotifyChange();
      }
    }

    /** Raises the given flags unless everything is to be resent, notifying when they were new. */
    method RaiseFlags(flag: set<Flag>)
      modifies this`flags, this`notifications
      ensures State() == FoundsetSpec.FlagRaised(old(State()), flag)
    {
      if SendAll !in flags {
        var oldChangeFlags := flags;
        flags := flags + flag;
        if oldChangeFlags != flags {
          NotifyChange();
        }
      }
    }

    /** selectionChanged; moving the data adapter list to the selected record is not modelled. */
    method SelectionChanged(userSetSelection: bool)
      modifies this`flags, this`notifications
      ensures State() == FoundsetSpec.FlagRaised(old(State()), SelectionFlags(userSetSelection))
    {
      if SendAll !in flags {
        var oldChangeFlags := flags;
        flags := flags + {SendSelectedIndexes};
        if userSetSelection {
          flags := flags + {SendUserSetSelection};
        }
        if oldChangeFlags != flags {
          NotifyChange();
        }
      }
    }

    method MultiSelectChanged()
      modifies this`flags, this`notifications
      ensures State() == FoundsetSpec.FlagRaised(old(State()), {SendMultiselect})
    {
      RaiseFlags({SendMultiselect});
    }

    method FoundsetSortChanged()
      modifies this`flags, this`notifications
      ensures State() == FoundsetSpec.FlagRaised(old(State()), {SendFoundsetSort})
    {
      RaiseFlags({SendFoundsetSort});
    }

    method ColumnFormatsUpdated()
      modifies this`flags, this`notifications
      ensures State() == FoundsetSpec.FlagRaised(old(State()), {SendColumnFormats})
    {
      RaiseFlags({SendColumnFormats});
    }

    method FoundsetIdChanged()
      modifies this`flags, this`notifications
      ensures State() == FoundsetSpec.FlagRaised(old(State()), {SendFoundsetId})
    {
      RaiseFlags({SendFoundsetId});
    }

    method CheckHadMoreRows(hadMoreRows: Option<bool>, doNotify: bool)
      modifies this`flags, this`lastHadMoreRecords, this`notifications
      ensures State() == FoundsetSpec.CheckHadMoreRows(old(State()), hadMoreRows, doNotify)
    {
      if hadMoreRows.Some? {
        var newHadMoreRows := hadMoreRows.value;
        var changed := newHadMoreRows != lastHadMoreRecords;
        lastHadMoreRecords := newHadMoreRows;
        if changed && SendAll !in flags {
          var oldChangeFlags := flags;
          flags := flags + {SendHadMoreRows};
          if doNotify && oldChangeFlags != flags {
            NotifyChange();
          }
        }
      }
    }

    method FoundSetSizeChanged(hadMoreRows: Option<bool>)
      modifies this`flags, this`lastHadMoreRecords, this`notifications
      ensures State() == FoundsetSpec.FoundSetSizeChanged(old(State()), hadMoreRows)
    {
      if SendAll !in flags {
        flags := flags + {SendFoundsetSize};
      }
      CheckHadMoreRows(hadMoreRows, false);
    }

    method NewFoundsetSize(hadMoreRows: Option<bool>)
      modifies this`flags, this`lastHadMoreRecords, this`notifications
      ensures State() == FoundsetSpec.NewFoundsetSize(old(State()), hadMoreRows)
    {
      var oldChangeFlags := flags;
      FoundSetSizeChanged(hadMoreRows);
      if oldChangeFlags != flags {
        NotifyChange();
      }
    }

    method ViewPortBoundsOnlyChanged()
      modifies this`flags
      ensures State() == FoundsetSpec.ViewPortBoundsOnlyChanged(old(State()))
    {
      if !wholeViewport && SendAll !in flags {
        flags := flags + {SendViewportBounds};
      }
    }

    method ViewPortCompletelyChanged()
      modifies this`flags, this`wholeViewport, this`notifications
      ensures State() == FoundsetSpec.ViewPortCompletelyChanged(old(State()))
    {
      var changed := !wholeViewport;
      wholeViewport := true;
      if SendAll !in flags && changed {
        flags := flags - {SendViewportBounds};
        NotifyChange();
      }
    }

    method AllChanged()
      modifies this`flags, this`wholeViewport, this`notifications
      ensures State() == FoundsetSpec.AllChanged(old(State()))
    {
      var oldChangeFlags := flags;
      flags := {SendAll};
      wholeViewport := true;
      if oldChangeFlags != flags {
        NotifyChange();
      }
    }

    /** findModeChanged; switching the data adapter list's find mode is not modelled. */
    method FindModeChanged()
      modifies this`flags, this`wholeViewport, this`notifications
      ensures State() == FoundsetSpec.AllChanged(old(State()))
    {
      AllChanged();
    }

    method QueueOperation(first: int, last: int, oldSize: int, kind: OpKind)
      modifies this`changes
      ensures changes == old(changes) + [Operation(first, last, oldSize, kind)]
    {
      changes := changes + [Operation(first, last, oldSize, kind)];
    }

    method ShrinkClientViewport(relativeFirst: int, relativeLast: int, oldSize: int)
      modifies this`changes
      ensures State() == FoundsetSpec.ShrinkClientViewport(old(State()), relativeFirst, relativeLast, oldSize)
    {
      if SendAll !in flags && !wholeViewport && relativeFirst <= relativeLast {
        QueueOperation(relativeFirst, relativeLast, oldSize, DeleteOp);
      }
    }

    method ExtendClientViewport(first: int, last: int, oldSize: int, viewPort: Viewport)
      modifies this`changes
      ensures State() == FoundsetSpec.ExtendClientViewport(old(State()), viewPort.Bounds(), first, last, oldSize)
    {
      if SendAll !in flags && !wholeViewport {
        var viewPortEndIdx := viewPort.startIndex + viewPort.size - 1;
        var lastViewPortInsert := Min(last, viewPortEndIdx);
        QueueOperation(first - viewPort.startIndex, lastViewPortInsert - viewPort.startIndex, oldSize, InsertOp);
      }
    }

    method RecordsDeleted(first: int, last: int, pkChunkSize: int, hadMoreRows: bool, viewPort: Viewport)
      requires viewPort.monitor == this && viewPort.foundsetSize.Some?
      modifies this, viewPort`startIndex, viewPort`size
      ensures Sync(State(), viewPort.Bounds())
              == FoundsetSpec.RecordsDeleted(Sync(old(State()), old(viewPort.Bounds())), viewPort.foundsetSize.value, hadMoreRows,
                                pkChunkSize, first, last)
    {
      if first == pkChunkSize && first + pkChunkSize < last && viewPort.startIndex + viewPort.size - 1 <= last {
        preferredResets := preferredResets + 1;
      } else {
        var oldChangeFlags := flags;
        if last - first >= 0 {
          FoundSetSizeChanged(Some(hadMoreRows));
        }
        DeletedRows(first, last, viewPort);
        if oldChangeFlags != flags {
          NotifyChange();
        }
      }
    }

    /** The body of recordsDeleted after the size flag was raised. */
    method DeletedRows(first: int, last: int, viewPort: Viewport)
      requires viewPort.monitor == this && viewPort.foundsetSize.Some?
      modifies this`changes, this`flags, viewPort`startIndex, viewPort`size
      ensures Sync(State(), viewPort.Bounds())
              == FoundsetSpec.DeletedRows(Sync(old(State()), old(viewPort.Bounds())), viewPort.foundsetSize.value, first, last)
    {
      if SendAll !in flags && !wholeViewport {
        var viewPortEndIdx := viewPort.startIndex + viewPort.size - 1;
        var slideBy;
        if first < viewPort.startIndex {
          slideBy := first - Min(viewPort.startIndex, last + 1);
        } else {
          slideBy := 0;
        }
        if BelongsToInterval(first, viewPort.startIndex, viewPortEndIdx)
           || BelongsToInterval(last, viewPort.startIndex, viewPortEndIdx)
           || BelongsToInterval(viewPort.startIndex, first, last)
        {
          DeletedInViewport(first, last, slideBy, viewPort);
        } else if slideBy != 0 {
          viewPort.SlideAndCorrect(slideBy);
        }
      } else if viewPort.size > viewPort.foundsetSize.value {
        viewPort.CorrectAndSetBoundsInternal(viewPort.startIndex, viewPort.size);
      }
    }

    /** The part of recordsDeleted for a delete that reaches into the viewport. */
    method DeletedInViewport(first: int, last: int, slideBy: int, viewPort: Viewport)
      requires viewPort.monitor == this && viewPort.foundsetSize.Some?
      modifies this`changes, this`flags, viewPort`startIndex, viewPort`size
      ensures Sync(State(), viewPort.Bounds())
              == FoundsetSpec.DeletedInViewport(Sync(old(State()), old(viewPort.Bounds())), viewPort.foundsetSize.value,
                                                first, last, slideBy)
    {
      var viewPortEndIdx := viewPort.startIndex + viewPort.size - 1;
      ghost var before := viewPort.Bounds();
      var firstRowDeletedInViewport := Max(viewPort.startIndex, first);
      var lastRowDeletedInViewport := Min(viewPortEndIdx, last);
      var relativeFirstRow := firstRowDeletedInViewport - viewPort.startIndex;
      var relativeLastRow := lastRowDeletedInViewport - viewPort.startIndex;
      var numberOfDeletes := lastRowDeletedInViewport - firstRowDeletedInViewport + 1;
      var oldViewPortSize := viewPort.size;
      viewPort.SlideAndCorrect(slideBy);
      viewPortEndIdx := viewPort.startIndex + viewPort.size - 1;
      var insertedStart := oldViewPortSize - numberOfDeletes;
      var insertedEnd := viewPortEndIdx - viewPort.startIndex;
      QueueOperation(relativeFirstRow, relativeLastRow, oldViewPortSize, DeleteOp);
      if insertedStart <= insertedEnd {
        QueueOperation(insertedStart, insertedEnd, oldViewPortSize, InsertOp);
      }
      assert changes == old(changes) + DeleteOps(first, last, before, viewPort.Bounds());
    }

    method RecordsInserted(first: int, last: int, oldSize: int, hadMoreRows: bool, viewPort: Viewport)
      requires viewPort.monitor == this
      modifies this, viewPort`startIndex, viewPort`size
      ensures Sync(State(), viewPort.Bounds())
              == FoundsetSpec.RecordsInserted(Sync(old(State()), old(viewPort.Bounds())), viewPort.foundsetSize, hadMoreRows,
                                 first, last, oldSize)
    {
      var oldChangeFlags := flags;
      if last - first >= 0 {
        FoundSetSizeChanged(Some(hadMoreRows));
      }
      InsertedRows(first, last, oldSize, viewPort);
      if oldChangeFlags != flags {
        NotifyChange();
      }
    }

    /** The body of recordsInserted after the size flag was raised. */
    method InsertedRows(first: int, last: int, oldSize: int, viewPort: Viewport)
      requires viewPort.monitor == this
      modifies this`changes, this`flags, viewPort`startIndex, viewPort`size
      ensures Sync(State(), viewPort.Bounds())
              == FoundsetSpec.InsertedRows(Sync(old(State()), old(viewPort.Bounds())), viewPort.foundsetSize, first, last, oldSize)
    {
      if SendAll !in flags && !wholeViewport {
        var viewPortEndIdx := viewPort.startIndex + viewPort.size - 1;
        if viewPort.startIndex <= first && first <= viewPortEndIdx {
          var lastViewPortInsert := Min(last, viewPortEndIdx);
          QueueOperation(first - viewPort.startIndex, lastViewPortInsert - viewPort.startIndex, oldSize, InsertOp);
          var rowsInsertedInViewport := lastViewPortInsert - first + 1;
          var rowsThatSlidedOutOfViewport := oldSize + rowsInsertedInViewport - viewPort.size;
          if rowsThatSlidedOutOfViewport > 0 {
            QueueOperation(viewPort.size, viewPort.size + rowsThatSlidedOutOfViewport - 1, oldSize, DeleteOp);
          }
          assert changes == old(changes) + InsertOps(first, last, oldSize, viewPort.Bounds());
        } else if viewPort.startIndex > first {
          viewPort.SlideAndCorrect(last - first + 1);
        }
      }
    }

    /** Queues one cell change per dataprovider, in order. */
    method QueueCellChanges(row: int, size: int, dataproviders: seq<string>)
      modifies this`changes
      ensures changes == old(changes) + CellChanges(row, size, dataproviders)
    {
      var i := 0;
      while i < |dataproviders|
        invariant 0 <= i <= |dataproviders|
        invariant changes == old(changes) + CellChanges(row, size, dataproviders[..i])
      {
        assert CellChanges(row, size, dataproviders[..i + 1])
               == CellChanges(row, size, dataproviders[..i]) + [CellChange(row, size, dataproviders[i])];
        changes := changes + [CellChange(row, size, dataproviders[i])];
        i := i + 1;
      }
      assert dataproviders[..i] == dataproviders;
    }

    method RecordsUpdated(first: int, last: int, foundsetSize: int, viewPort: Viewport, dataproviders: seq<string>, quiet: bool)
      modifies this`changes, this`flags, this`wholeViewport, this`notifications
      ensures State() == FoundsetSpec.RecordsUpdated(old(State()), viewPort.Bounds(), foundsetSize, first, last, dataproviders, quiet)
    {
      if quiet {
        return;
      }
      var firstViewPortIndex := Max(viewPort.startIndex, first);
      var lastViewPortIndex := Min(viewPort.startIndex + viewPort.size - 1, last);
      if first == 0 && last == foundsetSize - 1 {
        if |dataproviders| > 0 {
          if SendAll !in flags && !wholeViewport && firstViewPortIndex <= lastViewPortIndex {
            QueueCellChanges(firstViewPortIndex - viewPort.startIndex, viewPort.size, dataproviders);
          }
        } else if viewPort.size > 0 {
          ViewPortCompletelyChanged();
        }
      } else if SendAll !in flags && !wholeViewport && firstViewPortIndex <= lastViewPortIndex {
        if firstViewPortIndex == lastViewPortIndex && |dataproviders| > 0 {
          QueueCellChanges(firstViewPortIndex - viewPort.startIndex, viewPort.size, dataproviders);
        } else {
          QueueOperation(firstViewPortIndex - viewPort.startIndex, lastViewPortIndex - viewPort.startIndex,
                         viewPort.size, ChangeOp);
        }
      }
    }

    method HasChanges() returns (r: bool)
      ensures r == FoundsetSpec.HasChanges(State())
    {
      r := SendAll in flags || SendFoundsetSize in flags || SendFoundsetSort in flags
           || SendSelectedIndexes in flags || SendViewportBounds in flags || wholeViewport
           || SendColumnFormats in flags || |handled| > 0 || |changes| > 0;
    }

    method ClearChanges()
      modifies this`flags, this`wholeViewport, this`changes, this`handled
      ensures State() == FoundsetSpec.ClearChanges(old(State()))
    {
      flags := {};
      wholeViewport := false;
      changes := [];
      handled := [];
    }

    /** setChangeNotifier; nullPointer reports the NullPointerException a null notifier meets when changes are pending. */
    method SetChangeNotifier(present: bool) returns (nullPointer: bool)
      modifies this`hasNotifier, this`notifications
      ensures (State(), nullPointer) == FoundsetSpec.SetChangeNotifier(old(State()), present)
    {
      hasNotifier := present;
      nullPointer := false;
      var pending := HasChanges();
      if pending {
        if present {
          NotifyChange();
        } else {
          nullPointer := true;
        }
      }
    }
  }

  class Viewport {
    var startIndex: int
    var size: int
    /** the size of the foundset, None when there is none */
    var foundsetSize: Option<nat>
    const monitor: ChangeMonitor

    function Bounds(): Bounds
      reads this
    {
      FoundsetSpec.Bounds(startIndex, size)
    }

    constructor(changeMonitor: ChangeMonitor)
      ensures Bounds() == FoundsetSpec.Bounds(0, 0) && foundsetSize.None? && monitor == changeMonitor
    {
      startIndex := 0;
      size := 0;
      foundsetSize := None;
      monitor := changeMonitor;
    }

    /** correctViewportBoundsIfNeededInternal: corrects without notifying. */
    method CorrectBoundsInternal()
      modifies this`startIndex, this`size
      ensures Bounds() == Correct(old(startIndex), old(size), foundsetSize)
    {
      if foundsetSize.Some? {
        startIndex := Max(0, Min(startIndex, foundsetSize.value - 1));
        size := Max(0, Min(size, foundsetSize.value - startIndex));
      } else {
        startIndex := 0;
        size := 0;
      }
    }

    /** correctAndSetViewportBoundsInternal: sets the bounds and corrects them, without notifying. */
    method CorrectAndSetBoundsInternal(newStart: int, newSize: int)
      modifies this`startIndex, this`size
      ensures Bounds() == Correct(newStart, newSize, foundsetSize)
    {
      startIndex := newStart;
      size := newSize;
      CorrectBoundsInternal();
    }

    method SetBounds(newStart: int, newSize: int)
      modifies this`startIndex, this`size, monitor`flags, monitor`wholeViewport, monitor`notifications
      ensures Sync(monitor.State(), Bounds())
              == FoundsetSpec.SetBounds(Sync(old(monitor.State()), old(Bounds())), foundsetSize, newStart, newSize)
    {
      var oldStartIndex := startIndex;
      var oldSize := size;
      startIndex := newStart;
      size := newSize;
      CorrectBoundsInternal();
      if oldStartIndex != startIndex || oldSize != size {
        monitor.ViewPortCompletelyChanged();
      }
    }

    method SlideAndCorrect(delta: int)
      modifies this`startIndex, this`size, monitor`flags
      ensures Sync(monitor.State(), Bounds())
              == FoundsetSpec.SlideAndCorrect(Sync(old(monitor.State()), old(Bounds())), foundsetSize, delta)
    {
      var oldStartIndex := startIndex;
      var oldSize := size;
      startIndex := startIndex + delta;
      CorrectBoundsInternal();
      if oldStartIndex != startIndex || oldSize != size {
        monitor.ViewPortBoundsOnlyChanged();
      }
    }

    /** setFoundset: moving the foundset listener from the old foundset to the new one is not modelled. */
    method SetFoundset(newFoundsetSize: Option<nat>)
      modifies this`foundsetSize, this`startIndex, this`size, monitor`flags, monitor`wholeViewport, monitor`notifications
      ensures foundsetSize == newFoundsetSize
      ensures Sync(monitor.State(), Bounds())
              == FoundsetSpec.SetBounds(Sync(old(monitor.State()), old(Bounds())), newFoundsetSize, 0, 0)
    {
      foundsetSize := newFoundsetSize;
      SetBounds(0, 0);
    }
  }
}
