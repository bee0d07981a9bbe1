/** tasks/functions/service.py: the older copies of `paginate_queryset` and
    of the attachment clean-up, here specialised to a task. The paging dict
    has no "paginator" entry; everything else agrees with
    tasks/services/service.py. */
module FunctionsService {
  import opened Wrappers
  import opened Seqs
  import Domain
  import Service

  /** The dict the older `paginate_queryset` returns: no "paginator". */
  datatype TaskPagination<T> = TaskPagination(
    page: Service.Page<T>,
    flags: Service.PageFlags,
    lastPageNumber: nat,
    perPage: nat)

  /** `paginate_queryset` (older copy). */
  function PaginateQueryset<T>(items: seq<T>, pageNumber: string, perPage: nat): (r: TaskPagination<T>)
    requires perPage >= 1
    ensures 1 <= r.page.number <= r.lastPageNumber == Service.NumPages(|items|, perPage)
    ensures r.flags.endShowEllipsis <==> r.page.number < r.lastPageNumber - 3
    ensures r.flags.endShowLastPageLink <==> r.page.number <= r.lastPageNumber - 3
    ensures r.flags.startShowEllipsis <==> r.page.number > 4
    ensures r.flags.startShowFirstPageLink <==> r.page.number >= 4
  {
    var total := Service.NumPages(|items|, perPage);
    var current := Service.PageNumber(pageNumber, total);
    var page := Service.Page(Service.PageItems(items, perPage, current), current);
    TaskPagination(page, Service.Flags(current, total), total, perPage)
  }

  /** The two copies agree on every entry they share. */
  lemma PaginationCopiesAgree<T>(items: seq<T>, pageNumber: string, perPage: nat)
    requires perPage >= 1
    ensures var a := PaginateQueryset(items, pageNumber, perPage);
      var b := Service.PaginateQueryset(items, pageNumber, perPage);
      a.page == b.page && a.flags == b.flags && a.lastPageNumber == b.lastPageNumber
      && a.perPage == b.perPage
  {
    var total := Service.NumPages(|items|, perPage);
    var current := Service.PageNumber(pageNumber, total);
    assert Service.PaginateQueryset(items, pageNumber, perPage).page
      == Service.Page(Service.PageItems(items, perPage, current), current);
  }

  /** `remove_unused_task_attached_files`: the same clean-up, on a task's
      files. */
  method RemoveUnusedTaskAttachedFiles(loaded: Option<Service.Json>, task: Service.FileOwner, store: Service.FileStore,
                                       deleteOrphanFiles: bool)
    returns (r: Result<(), Service.DetachError>)
    requires NoDup(task.files)
    modifies task, store
    ensures r.Err? <==> Service.UploaderDataOf(loaded).OtherJson?
    ensures !Service.UploaderDataOf(loaded).FileEntries? ==>
      task.files == old(task.files) && store.rows == old(store.rows) && store.stored == old(store.stored)
    ensures var data := Service.UploaderDataOf(loaded);
      data.FileEntries? ==> task.files == Service.Listed(old(task.files), data.urls)
    ensures var data := Service.UploaderDataOf(loaded);
      data.FileEntries? && deleteOrphanFiles ==>
        store.rows == Service.DeleteRows(old(store.rows), Service.Unlisted(old(task.files), data.urls))
        && store.stored == old(store.stored) - Service.UrlSet(Service.Unlisted(old(task.files), data.urls))
    ensures Service.UploaderDataOf(loaded).FileEntries? && !deleteOrphanFiles ==>
      store.rows == old(store.rows) && store.stored == old(store.stored)
  {
    r := Service.RemoveUnusedAttachedFiles(loaded, task, store, deleteOrphanFiles);
  }
}
